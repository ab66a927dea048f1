/** The display's side of the link: an HD44780 whose upper four data lines, RS and E hang
    off a PCF8574 port expander. */
module Hd44780 {

  const BIT_RS: bv8 := 0x01
  const BIT_EN: bv8 := 0x04
  const BIT_BACKLIGHT: bv8 := 0x08

  datatype Mode = Bits8 | Bits4

  /** One byte as the controller executes it; `value` of a lone nibble sits in bits 7-4. */
  datatype Transfer = Transfer(rs: bool, value: bv8)

  datatype Pending = NoNibble | First(nibble: Transfer)

  /** `pins` are the expander's outputs; `decoded` lists every byte executed in 4-bit mode. */
  datatype Controller = Controller(mode: Mode, pending: Pending, pins: bv8, decoded: seq<Transfer>)

  /** What the hardware leaves open: which data a lone falling edge latches while all lines
      change at once, and which RS level counts if it differs between two nibbles. */
  datatype Glitch = Glitch(oldData: bool, oldRs: bool)

  predicate EnableHigh(pins: bv8) { pins & BIT_EN != 0 }

  predicate RsHigh(pins: bv8) { pins & BIT_RS != 0 }

  function Nibble(pins: bv8): Transfer { Transfer(RsHigh(pins), pins & 0xF0) }

  /** The function-set instruction 001D selects the interface width: D=1 means 8 bits. */
  function ModeAfter(mode: Mode, t: Transfer): Mode {
    if t.rs || t.value & 0xE0 != 0x20 then mode
    else if t.value & 0x10 != 0 then Bits8 else Bits4
  }

  /** A falling edge of E: in 8-bit mode the nibble is a whole instruction (the lower data
      lines are not connected); in 4-bit mode two nibbles make a byte, high one first. */
  function Clock(c: Controller, n: Transfer, g: Glitch): Controller {
    match (c.mode, c.pending)
    case (Bits8, _) => c.(mode := ModeAfter(Bits8, n), pending := NoNibble)
    case (Bits4, NoNibble) => c.(pending := First(n))
    case (Bits4, First(f)) =>
      var t := Transfer(if g.oldRs then f.rs else n.rs, f.value | (n.value >> 4));
      c.(mode := ModeAfter(Bits4, t), pending := NoNibble, decoded := c.decoded + [t])
  }

  /** The expander takes on a new output byte. */
  function Drive(c: Controller, out: bv8, g: Glitch): Controller {
    if EnableHigh(c.pins) && !EnableHigh(out)
    then Clock(c, Nibble(if g.oldData then c.pins else out), g).(pins := out)
    else c.(pins := out)
  }

  ghost predicate DrivenTo(c: Controller, out: bv8, after: Controller) {
    exists g: Glitch :: after == Drive(c, out, g)
  }

  /** Ready for the high nibble of a byte in 4-bit mode, E low. */
  predicate Aligned(c: Controller) {
    c.mode.Bits4? && c.pending.NoNibble? && !EnableHigh(c.pins)
  }

  const RESET := Transfer(false, 0x30)

  /** How far `k` reset nibbles have got: after three the interface is 8 bits wide. */
  predicate ResetProgress(c: Controller, k: nat) {
    c.mode.Bits8? ||
    (k == 0) || (k == 1 && (c.pending.NoNibble? || c.pending == First(RESET))) || (k == 2 && c.pending == First(RESET))
  }

  lemma ResetStep(c: Controller, k: nat, g: Glitch)
    requires k < 3 && ResetProgress(c, k)
    ensures ResetProgress(Clock(c, RESET, g), k + 1) && c.decoded <= Clock(c, RESET, g).decoded
  {
    assert (0x30 as bv8) | ((0x30 as bv8) >> 4) == 0x33;
  }

  /** Three function-set-8 nibbles reach 8-bit mode from any mode and any pending nibble, and the
      4-bit function-set nibble then leaves an aligned 4-bit interface (Figure 24 of the
      HD44780U datasheet). */
  lemma ResetReachesAligned(c: Controller, g1: Glitch, g2: Glitch, g3: Glitch, g4: Glitch)
    ensures var eight := Clock(Clock(Clock(c, RESET, g1), RESET, g2), RESET, g3);
            && eight.mode.Bits8? && c.decoded <= eight.decoded
            && var four := Clock(eight, Transfer(false, 0x20), g4);
               four.mode.Bits4? && four.pending.NoNibble? && four.decoded == eight.decoded
  {
    ResetStep(c, 0, g1);
    var c1 := Clock(c, RESET, g1);
    ResetStep(c1, 1, g2);
    var c2 := Clock(c1, RESET, g2);
    ResetStep(c2, 2, g3);
    SelectFourBits(Clock(c2, RESET, g3), g4);
  }

  lemma SelectFourBits(c: Controller, g: Glitch)
    requires c.mode.Bits8?
    ensures var four := Clock(c, Transfer(false, 0x20), g);
            four.mode.Bits4? && four.pending.NoNibble? && four.decoded == c.decoded
  {
  }

  /** Two reset nibbles are not enough: from a pending nibble they can end misaligned. */
  lemma TwoResetsDoNotSuffice()
    ensures var c := Controller(Bits4, First(Transfer(true, 0x40)), 0x00, []);
            var reset, g := Transfer(false, 0x30), Glitch(false, false);
            Clock(Clock(Clock(c, reset, g), reset, g), Transfer(false, 0x20), g).mode.Bits8?
  {
    var c := Controller(Bits4, First(Transfer(true, 0x40)), 0x00, []);
    var reset, g := Transfer(false, 0x30), Glitch(false, false);
    assert (0x40 as bv8) | ((0x30 as bv8) >> 4) == 0x43;
    assert Clock(c, reset, g).mode.Bits4? && Clock(c, reset, g).pending.NoNibble?;
    assert (0x30 as bv8) | ((0x20 as bv8) >> 4) == 0x32;
  }

  /** Both nibbles of a byte arrive: the controller executes exactly that byte. */
  lemma TwoNibblesMakeTheByte(c: Controller, rs: bool, value: bv8, g1: Glitch, g2: Glitch)
    requires c.mode.Bits4? && c.pending.NoNibble? && KeepsFourBits(rs, value)
    ensures var half := Clock(c, Transfer(rs, value & 0xF0), g1);
            && half.mode.Bits4? && half.pending == First(Transfer(rs, value & 0xF0)) && half.decoded == c.decoded
            && var full := Clock(half, Transfer(rs, (value << 4) & 0xF0), g2);
               full.mode.Bits4? && full.pending.NoNibble? && full.decoded == c.decoded + [Transfer(rs, value)]
  {
    assert (value & 0xF0) | (((value << 4) & 0xF0) >> 4) == value;
  }

  /** Anything but the instruction that selects the 8-bit interface. */
  predicate KeepsFourBits(rs: bool, value: bv8) {
    rs || value & 0xF0 != 0x30
  }

  // ---------------------------------------------------------------- what the bytes mean

  /** What a reader sees of the display: is it on, has it two lines, does the cursor move right without
      shifting, is it at the first position, and are all characters blank? */
  datatype Panel = Panel(on: bool, twoLines: bool, movesRight: bool, atHome: bool, blank: bool)

  /** One byte executed: a character, or the instruction told by the highest bit set. */
  function Execute(p: Panel, t: Transfer): Panel {
    var v := t.value;
    if t.rs then p.(atHome := false, blank := false)
    else if v & 0x80 != 0 then p.(atHome := v == 0x80)
    else if v & 0x40 != 0 then p.(atHome := false)
    else if v & 0x20 != 0 then p.(twoLines := v & 0x08 != 0)
    else if v & 0x10 != 0 then p.(atHome := false)
    else if v & 0x08 != 0 then p.(on := v & 0x04 != 0)
    else if v & 0x04 != 0 then p.(movesRight := v & 0x03 == 0x02)
    else if v & 0x02 != 0 then p.(atHome := true)
    else if v == 0x01 then p.(atHome := true, blank := true)
    else p
  }

  function ExecuteAll(p: Panel, bytes: seq<Transfer>): Panel
    decreases |bytes|
  {
    if |bytes| == 0 then p else Execute(ExecuteAll(p, bytes[..|bytes| - 1]), bytes[|bytes| - 1])
  }

  lemma {:induction false} ExecuteThen(p: Panel, a: seq<Transfer>, b: seq<Transfer>)
    ensures ExecuteAll(p, a + b) == ExecuteAll(ExecuteAll(p, a), b)
    decreases |b|
  {
    if |b| == 0 {
      assert a + b == a;
    } else {
      assert (a + b)[..|a + b| - 1] == a + b[..|b| - 1];
      ExecuteThen(p, a, b[..|b| - 1]);
    }
  }
}
