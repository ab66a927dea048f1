/** CRC-8 (polynomial 0x07, initial value 0, no reflection) over the screen rows. */
module LcdIntegrity {

  const ROW := 16
  const BYTE_BITS: nat := 8

  /** A byte as its bits, most significant first. */
  datatype Byte = Byte(b7: bool, b6: bool, b5: bool, b4: bool, b3: bool, b2: bool, b1: bool, b0: bool)

  const ZERO := Byte(false, false, false, false, false, false, false, false)
  /** 0x07 and 0x20. */
  const POLY := Byte(false, false, false, false, false, true, true, true)
  const BLANK := Byte(false, false, true, false, false, false, false, false)

  type Block = seq<Byte>

  function Xor(a: Byte, b: Byte): Byte {
    Byte(a.b7 != b.b7, a.b6 != b.b6, a.b5 != b.b5, a.b4 != b.b4, a.b3 != b.b3, a.b2 != b.b2, a.b1 != b.b1, a.b0 != b.b0)
  }

  /** `<< 1` on uint8_t. */
  function Left(c: Byte): Byte { Byte(c.b6, c.b5, c.b4, c.b3, c.b2, c.b1, c.b0, false) }

  /** One bit of the shift register: multiplication by x modulo x^8 + x^2 + x + 1. */
  function Shift(c: Byte): Byte {
    Byte(c.b6, c.b5, c.b4, c.b3, c.b2, c.b1 != c.b7, c.b0 != c.b7, c.b7)
  }

  /** The branch of the inner loop computes it. */
  lemma ShiftByBranch(c: Byte)
    ensures Shift(c) == if c.b7 then Xor(Left(c), POLY) else Left(c)
  {
  }

  function Shifts(c: Byte, n: nat): Byte {
    if n == 0 then c else Shift(Shifts(c, n - 1))
  }

  /** The register after a byte has been absorbed. */
  function Absorb(c: Byte, b: Byte): Byte { Shifts(Xor(c, b), BYTE_BITS) }

  function Crc(s: Block): Byte
    decreases |s|
  {
    if |s| == 0 then ZERO else Absorb(Crc(s[..|s| - 1]), s[|s| - 1])
  }

  /** The nested loops of crc8. */
  method Crc8(data: array<Byte>) returns (crc: Byte)
    ensures crc == Crc(data[..])
  {
    crc := ZERO;
    var i := 0;
    while i < data.Length
      invariant 0 <= i <= data.Length && crc == Crc(data[..i])
    {
      ghost var before := crc;
      crc := Xor(crc, data[i]);
      var bit := 0;
      while bit < BYTE_BITS
        invariant 0 <= bit <= BYTE_BITS && crc == Shifts(Xor(before, data[i]), bit)
      {
        ShiftByBranch(crc);
        if crc.b7 {
          crc := Xor(Left(crc), POLY);
        } else {
          crc := Left(crc);
        }
        bit := bit + 1;
      }
      assert data[..i + 1][..i] == data[..i];
      i := i + 1;
    }
    assert data[..data.Length] == data[..];
  }

  /** The number a byte stands for. */
  function Value(b: Byte): nat {
    (if b.b7 then 128 else 0) + (if b.b6 then 64 else 0) + (if b.b5 then 32 else 0) + (if b.b4 then 16 else 0)
    + (if b.b3 then 8 else 0) + (if b.b2 then 4 else 0) + (if b.b1 then 2 else 0) + (if b.b0 then 1 else 0)
  }

  /** The CRC-8 of the single byte 1 is the polynomial, 0x07, and that of 0x80 is 0x89. */
  lemma CrcOfOneBit(b: Byte)
    ensures Value(b) == 1 ==> Value(Absorb(ZERO, b)) == 0x07
    ensures Value(b) == 0x80 ==> Value(Absorb(ZERO, b)) == 0x89
  {
    var one, top := ZERO.(b0 := true), ZERO.(b7 := true);
    assert Value(b) == 1 ==> b == one;
    assert Value(b) == 0x80 ==> b == top;
    assert Shifts(one, 7) == top;
    assert Shifts(one, 8) == POLY;
    assert Shifts(top, 1) == POLY;
    assert Shifts(top, 6) == Byte(true, true, true, false, false, false, false, false);
    assert Shifts(top, 8) == Byte(true, false, false, false, true, false, false, true);
  }

  // ---------------------------------------------------------------- linearity

  lemma ShiftLinear(a: Byte, b: Byte)
    ensures Shift(Xor(a, b)) == Xor(Shift(a), Shift(b))
  {
  }

  lemma {:induction false} ShiftsLinear(a: Byte, b: Byte, n: nat)
    ensures Shifts(Xor(a, b), n) == Xor(Shifts(a, n), Shifts(b, n))
    decreases n
  {
    if n > 0 {
      ShiftsLinear(a, b, n - 1);
      ShiftLinear(Shifts(a, n - 1), Shifts(b, n - 1));
    }
  }

  lemma ShiftInjective(a: Byte)
    ensures Shift(a) == ZERO <==> a == ZERO
  {
  }

  lemma {:induction false} ShiftsInjective(a: Byte, n: nat)
    ensures Shifts(a, n) == ZERO <==> a == ZERO
    decreases n
  {
    if n > 0 {
      ShiftsInjective(a, n - 1);
      ShiftInjective(Shifts(a, n - 1));
    }
  }

  function XorBlocks(a: Block, b: Block): (r: Block)
    requires |a| == |b|
    ensures |r| == |a|
  {
    seq(|a|, i requires 0 <= i < |a| => Xor(a[i], b[i]))
  }

  lemma XorSwap(a: Byte, b: Byte, c: Byte, d: Byte)
    ensures Xor(Xor(a, b), Xor(c, d)) == Xor(Xor(a, c), Xor(b, d))
  {
  }

  lemma AbsorbLinear(c: Byte, d: Byte, a: Byte, b: Byte)
    ensures Absorb(Xor(c, d), Xor(a, b)) == Xor(Absorb(c, a), Absorb(d, b))
  {
    XorSwap(c, d, a, b);
    ShiftsLinear(Xor(c, a), Xor(d, b), BYTE_BITS);
  }

  /** The CRC of the xor of two equal-length blocks is the xor of their CRCs. */
  lemma {:induction false} CrcLinear(a: Block, b: Block)
    requires |a| == |b|
    ensures Crc(XorBlocks(a, b)) == Xor(Crc(a), Crc(b))
    decreases |a|
  {
    var n := |a| - 1;
    if n >= 0 {
      CrcLinear(a[..n], b[..n]);
      assert XorBlocks(a, b)[..n] == XorBlocks(a[..n], b[..n]);
      AbsorbLinear(Crc(a[..n]), Crc(b[..n]), a[n], b[n]);
    }
  }

  // ---------------------------------------------------------------- burst errors

  /** An 8-bit pattern starting `offset` bits into a byte: what falls into that byte... */
  function HighPart(p: Byte, offset: nat): Byte {
    match offset
    case 0 => Byte(p.b7, p.b6, p.b5, p.b4, p.b3, p.b2, p.b1, p.b0)
    case 1 => Byte(false, p.b7, p.b6, p.b5, p.b4, p.b3, p.b2, p.b1)
    case 2 => Byte(false, false, p.b7, p.b6, p.b5, p.b4, p.b3, p.b2)
    case 3 => Byte(false, false, false, p.b7, p.b6, p.b5, p.b4, p.b3)
    case 4 => Byte(false, false, false, false, p.b7, p.b6, p.b5, p.b4)
    case 5 => Byte(false, false, false, false, false, p.b7, p.b6, p.b5)
    case 6 => Byte(false, false, false, false, false, false, p.b7, p.b6)
    case _ => Byte(false, false, false, false, false, false, false, p.b7)
  }

  /** ... and what spills into the next one. */
  function LowPart(p: Byte, offset: nat): Byte {
    match offset
    case 0 => ZERO
    case 1 => Byte(p.b0, false, false, false, false, false, false, false)
    case 2 => Byte(p.b1, p.b0, false, false, false, false, false, false)
    case 3 => Byte(p.b2, p.b1, p.b0, false, false, false, false, false)
    case 4 => Byte(p.b3, p.b2, p.b1, p.b0, false, false, false, false)
    case 5 => Byte(p.b4, p.b3, p.b2, p.b1, p.b0, false, false, false)
    case 6 => Byte(p.b5, p.b4, p.b3, p.b2, p.b1, p.b0, false, false)
    case _ => Byte(p.b6, p.b5, p.b4, p.b3, p.b2, p.b1, p.b0, false)
  }

  /** Bits set only within 8 consecutive bits starting `offset` bits into byte `at`. */
  predicate Burst(d: Block, at: nat, offset: nat, pattern: Byte) {
    && at < |d| && offset < 8 && pattern != ZERO
    && d[at] == HighPart(pattern, offset)
    && (at + 1 < |d| ==> d[at + 1] == LowPart(pattern, offset))
    && (at + 1 == |d| ==> LowPart(pattern, offset) == ZERO)
    && forall i :: 0 <= i < |d| && i != at && i != at + 1 ==> d[i] == ZERO
  }

  /** Two blocks that differ, and only within 8 consecutive bits. */
  predicate DifferInBurst(a: Block, b: Block, at: nat, offset: nat, pattern: Byte) {
    |a| == |b| && Burst(XorBlocks(a, b), at, offset, pattern)
  }

  lemma {:induction false} ZerosKeepZero(d: Block)
    requires forall i :: 0 <= i < |d| ==> d[i] == ZERO
    ensures Crc(d) == ZERO
    decreases |d|
  {
    if |d| > 0 {
      ZerosKeepZero(d[..|d| - 1]);
      ShiftsInjective(Xor(ZERO, ZERO), BYTE_BITS);
    }
  }

  /** Trailing zero bytes never bring a nonzero register back to zero. */
  lemma {:induction false} ZerosKeepNonzero(d: Block, n: nat)
    requires n <= |d| && Crc(d[..n]) != ZERO && forall i :: n <= i < |d| ==> d[i] == ZERO
    ensures Crc(d) != ZERO
    decreases |d|
  {
    if n < |d| {
      assert d[..|d| - 1][..n] == d[..n];
      ZerosKeepNonzero(d[..|d| - 1], n);
      AbsorbNonzero(Crc(d[..|d| - 1]), ZERO);
    } else {
      assert d[..n] == d;
    }
  }

  lemma XorOfEquals(a: Byte, b: Byte)
    ensures Xor(a, b) == ZERO <==> a == b
  {
  }

  lemma AbsorbNonzero(c: Byte, b: Byte)
    requires c != b
    ensures Absorb(c, b) != ZERO
  {
    XorOfEquals(c, b);
    ShiftsInjective(Xor(c, b), BYTE_BITS);
  }

  function Shifts8(c: Byte): Byte {
    Shift(Shift(Shift(Shift(Shift(Shift(Shift(Shift(c))))))))
  }

  lemma Shifts8IsAbsorb(c: Byte)
    ensures Absorb(ZERO, c) == Shifts8(c)
  {
    assert Xor(ZERO, c) == c;
    assert Shifts(c, 0) == c;
    assert Shifts(c, 1) == Shift(Shifts(c, 0));
    assert Shifts(c, 2) == Shift(Shifts(c, 1));
    assert Shifts(c, 3) == Shift(Shifts(c, 2));
    assert Shifts(c, 4) == Shift(Shifts(c, 3));
    assert Shifts(c, 5) == Shift(Shifts(c, 4));
    assert Shifts(c, 6) == Shift(Shifts(c, 5));
    assert Shifts(c, 7) == Shift(Shifts(c, 6));
    assert Shifts(c, 8) == Shift(Shifts(c, 7));
  }

  /** The register left by the first byte of a burst is never what its second byte would cancel. */
  lemma SpanningBurstSurvives(pattern: Byte, offset: nat)
    requires pattern != ZERO && offset < 8
    ensures Absorb(ZERO, HighPart(pattern, offset)) != LowPart(pattern, offset)
  {
    Shifts8IsAbsorb(HighPart(pattern, offset));
    match offset
    case 0 => Survives0(pattern);
    case 1 => Survives1(pattern);
    case 2 => Survives2(pattern);
    case 3 => Survives3(pattern);
    case 4 => Survives4(pattern);
    case 5 => Survives5(pattern);
    case 6 => Survives6(pattern);
    case _ => Survives7(pattern);
  }

  lemma Survives0(p: Byte)
    requires p != ZERO
    ensures Shifts8(HighPart(p, 0)) != LowPart(p, 0)
  {
  }

  lemma Survives1(p: Byte)
    requires p != ZERO
    ensures Shifts8(HighPart(p, 1)) != LowPart(p, 1)
  {
  }

  lemma Survives2(p: Byte)
    requires p != ZERO
    ensures Shifts8(HighPart(p, 2)) != LowPart(p, 2)
  {
  }

  lemma Survives3(p: Byte)
    requires p != ZERO
    ensures Shifts8(HighPart(p, 3)) != LowPart(p, 3)
  {
  }

  lemma Survives4(p: Byte)
    requires p != ZERO
    ensures Shifts8(HighPart(p, 4)) != LowPart(p, 4)
  {
  }

  lemma Survives5(p: Byte)
    requires p != ZERO
    ensures Shifts8(HighPart(p, 5)) != LowPart(p, 5)
  {
  }

  lemma Survives6(p: Byte)
    requires p != ZERO
    ensures Shifts8(HighPart(p, 6)) != LowPart(p, 6)
  {
  }

  lemma Survives7(p: Byte)
    requires p != ZERO
    ensures Shifts8(HighPart(p, 7)) != LowPart(p, 7)
  {
  }

  /** After leading zeros the register holds the first nonzero byte's own remainder. */
  lemma LeadingZeros(d: Block, at: nat)
    requires at < |d| && forall i :: 0 <= i < at ==> d[i] == ZERO
    ensures Crc(d[..at + 1]) == Absorb(ZERO, d[at])
  {
    ZerosKeepZero(d[..at]);
    CrcGrows(d, at);
  }

  /** A register that the next byte does not cancel stays nonzero over trailing zeros. */
  lemma TwoBytesSurvive(d: Block, at: nat, low: Byte)
    requires at < |d| && Crc(d[..at + 1]) != low
    requires if at + 1 < |d| then d[at + 1] == low else low == ZERO
    requires forall i :: at + 1 < i < |d| ==> d[i] == ZERO
    ensures Crc(d) != ZERO
  {
    if at + 1 < |d| {
      CrcGrows(d, at + 1);
      AbsorbNonzero(Crc(d[..at + 1]), low);
      ZerosKeepNonzero(d, at + 2);
    } else {
      assert d[..at + 1] == d;
    }
  }

  lemma CrcGrows(d: Block, n: nat)
    requires n < |d|
    ensures Crc(d[..n + 1]) == Absorb(Crc(d[..n]), d[n])
  {
    assert d[..n + 1][..n] == d[..n];
  }

  lemma DifferenceDecides(a: Block, b: Block)
    requires |a| == |b|
    ensures Crc(XorBlocks(a, b)) == ZERO <==> Crc(a) == Crc(b)
  {
    CrcLinear(a, b);
    XorOfEquals(Crc(a), Crc(b));
  }

  /** Two blocks of any length differing only within 8 consecutive bits have different CRCs. */
  lemma BurstDetected(a: Block, b: Block, at: nat, offset: nat, pattern: Byte)
    requires DifferInBurst(a, b, at, offset, pattern)
    ensures Crc(a) != Crc(b)
  {
    SpanningBurstSurvives(pattern, offset);
    LeadingZeros(XorBlocks(a, b), at);
    TwoBytesSurvive(XorBlocks(a, b), at, LowPart(pattern, offset));
    DifferenceDecides(a, b);
  }

  /** In particular a single changed byte is always noticed. */
  lemma ChangedByteDetected(a: Block, b: Block, at: nat)
    requires |a| == |b| && at < |a| && a[at] != b[at] && forall i :: 0 <= i < |a| && i != at ==> a[i] == b[i]
    ensures Crc(a) != Crc(b)
  {
    XorOfEquals(a[at], b[at]);
    AbsorbNonzero(ZERO, Xor(a[at], b[at]));
    forall i | 0 <= i < |a| && i != at
      ensures XorBlocks(a, b)[i] == ZERO
    {
      XorOfEquals(a[i], b[i]);
    }
    LeadingZeros(XorBlocks(a, b), at);
    TwoBytesSurvive(XorBlocks(a, b), at, ZERO);
    DifferenceDecides(a, b);
  }

  // ---------------------------------------------------------------- the snapshot

  /** What one cell of the snapshot holds: a missing row or a terminator becomes a blank. */
  function Cell(row: Block, i: nat): Byte {
    if i < |row| && row[i] != ZERO then row[i] else BLANK
  }

  function Padded(row: Block): (r: Block)
    ensures |r| == ROW
  {
    seq(ROW, i requires 0 <= i < ROW => Cell(row, i))
  }

  /** The C string in a row: what comes before the first terminator. */
  function Text(row: Block): (t: Block)
    ensures |t| <= |row| && t == row[..|t|] && ZERO !in t
    ensures |t| < |row| ==> row[|t|] == ZERO
  {
    if |row| == 0 || row[0] == ZERO then [] else [row[0]] + Text(row[1..])
  }

  /** A string padded with blanks, or cut, to the width of the display. */
  function PaddedText(text: Block): (r: Block)
    ensures |r| == ROW
  {
    seq(ROW, i requires 0 <= i < ROW => if i < |text| then text[i] else BLANK)
  }

  /** The cells from the terminator to the end of the row hold nothing to show. */
  predicate BlankAfterText(row: Block)
    requires |row| >= ROW
  {
    forall i :: |Text(row)| <= i < ROW ==> row[i] == ZERO || row[i] == BLANK
  }

  /** The stored row is the string padded with blanks if and only if nothing but terminators and blanks
      follows the string within the first 16 bytes. */
  lemma PadsTextExactlyWhen(row: Block)
    requires |row| >= ROW
    ensures Padded(row) == PaddedText(Text(row)) <==> BlankAfterText(row)
  {
    if BlankAfterText(row) {
      forall i | 0 <= i < ROW
        ensures Padded(row)[i] == PaddedText(Text(row))[i]
      {
        assert i < |Text(row)| ==> Text(row)[i] in Text(row);
      }
      assert Padded(row) == PaddedText(Text(row));
    }
    if Padded(row) == PaddedText(Text(row)) {
      forall i | |Text(row)| <= i < ROW
        ensures row[i] == ZERO || row[i] == BLANK
      {
        assert Padded(row)[i] == PaddedText(Text(row))[i] == BLANK;
      }
    }
  }

  /** A byte left behind the terminator is stored, and shown, as if it belonged to the string. */
  lemma LeftoverByteIsStored(row: Block, b: Byte)
    requires b != ZERO && b != BLANK && row == [b, ZERO, b] + seq(13, _ => ZERO)
    ensures Text(row) == [b] && Padded(row) == [b, BLANK, b] + seq(13, _ => BLANK) && Padded(row) != PaddedText(Text(row))
  {
    assert row[0] == b && row[1] == ZERO && row[2] == b;
    assert row[1..][0] == ZERO;
    assert Padded(row)[2] == b && PaddedText(Text(row))[2] == BLANK;
  }

  class Snapshot {
    var row0: Block
    var row1: Block
    var crc: Byte
    var hasSnapshot: bool

    /** lcd_integrity_snapshot. A row is either absent (null, here empty) or at least 16 bytes long:
        the copy reads all 16 positions, even past a terminator. */
    method Take(first: Block, second: Block)
      requires (|first| == 0 || |first| >= ROW) && (|second| == 0 || |second| >= ROW)
      modifies this
      ensures hasSnapshot && row0 == Padded(first) && row1 == Padded(second)
      // what is stored is what the two strings say, padded with blanks, exactly when nothing follows them
      ensures |first| >= ROW ==> (row0 == PaddedText(Text(first)) <==> BlankAfterText(first))
      ensures |second| >= ROW ==> (row1 == PaddedText(Text(second)) <==> BlankAfterText(second))
      ensures crc == Crc(row0 + row1)
    {
      row0 := CopyRow(first);
      row1 := CopyRow(second);
      var content := row0 + row1;
      var block := new Byte[|content|](k requires 0 <= k < |content| => content[k]);
      assert block[..] == content;
      crc := Crc8(block);
      hasSnapshot := true;
    }
  }

  /** The copy loop for one row. */
  method CopyRow(source: Block) returns (row: Block)
    requires |source| == 0 || |source| >= ROW
    ensures row == Padded(source)
    ensures |source| >= ROW ==> (row == PaddedText(Text(source)) <==> BlankAfterText(source))
  {
    row := [];
    var i := 0;
    while i < ROW
      invariant 0 <= i <= ROW && |row| == i
      invariant forall k :: 0 <= k < i ==> row[k] == Cell(source, k)
    {
      row := row + [if |source| > 0 && source[i] != ZERO then source[i] else BLANK];
      i := i + 1;
    }
    if |source| >= ROW {
      PadsTextExactlyWhen(source);
    }
  }
}
