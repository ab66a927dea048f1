/** The driver's side of the link: nibble writes, the error latch and resynchronisation. */
module LcdLink {
  import opened Hd44780

  datatype Err = Ok | InvalidState | BusError

  const CMD_CLEAR: bv8 := 0x01
  const CMD_HOME: bv8 := 0x02
  const CMD_ENTRY_MODE: bv8 := 0x06
  const CMD_DISPLAY_OFF: bv8 := 0x08
  const CMD_DISPLAY_ON: bv8 := 0x0C
  const CMD_FUNCTION_SET: bv8 := 0x28

  /** One E pulse carrying `n`: E low at the end, exactly one falling edge. */
  ghost predicate Pulsed(c: Controller, n: Transfer, after: Controller) {
    !EnableHigh(after.pins) && exists g: Glitch :: after == Clock(c, n, g).(pins := after.pins)
  }

  /** A pulse that a failed write cut short: no edge yet, or the edge happened unreported. */
  ghost predicate PulseBroken(c: Controller, n: Transfer, after: Controller) {
    after == c.(pins := after.pins) || Pulsed(c, n, after)
  }

  /** What send_byte promises on an aligned link whose latch is clear. */
  ghost predicate ByteSent(c: Controller, t: Transfer, after: Controller, err: Err) {
    if err.Ok? then Aligned(after) && after.decoded == c.decoded + [t]
    else after.decoded == c.decoded || after.decoded == c.decoded + [t]
  }

  function BringUpBytes(clear: bool): seq<Transfer> {
    if clear
    then [Transfer(false, CMD_FUNCTION_SET), Transfer(false, CMD_DISPLAY_OFF), Transfer(false, CMD_CLEAR),
          Transfer(false, CMD_ENTRY_MODE), Transfer(false, CMD_DISPLAY_ON)]
    else [Transfer(false, CMD_FUNCTION_SET), Transfer(false, CMD_ENTRY_MODE), Transfer(false, CMD_HOME),
          Transfer(false, CMD_DISPLAY_ON)]
  }

  /** Whatever a misaligned display made of the first writes, the given bytes came last. */
  ghost predicate DecodedLast(before: seq<Transfer>, after: seq<Transfer>, bytes: seq<Transfer>) {
    exists noise :: after == before + noise + bytes
  }

  lemma DecodedLastAfterNoise(before: seq<Transfer>, start: seq<Transfer>, after: seq<Transfer>, bytes: seq<Transfer>)
    requires before <= start && (after == start + bytes || DecodedLast(start, after, bytes))
    ensures DecodedLast(before, after, bytes)
  {
    var noise :| after == start + noise + bytes by {
      assert after == start + bytes ==> after == start + [] + bytes;
    }
    assert after == before + (start[|before|..] + noise) + bytes;
  }

  /** The driver and display between two calls. */
  datatype Link = Link(ioError: bool, controller: Controller)

  datatype Op = Send(rs: bool, value: bv8) | Light | Resynchronise

  /** What one call may do to the link. While the latch is set only a resynchronisation does anything. */
  ghost predicate Step(l: Link, op: Op, after: Link) {
    if op.Resynchronise? then
      !after.ioError ==>
        Aligned(after.controller) && DecodedLast(l.controller.decoded, after.controller.decoded, BringUpBytes(false))
    else if l.ioError then after == l
    else Aligned(l.controller) ==>
      match op
      case Send(rs, value) => ByteSent(l.controller, Transfer(rs, value), after.controller, if after.ioError then BusError else Ok)
      case Light => BacklightSet(l.controller, after.controller, after.ioError)
  }

  class Lcd {
    var address: bv8
    var backlight: bool
    var ioError: bool
    var ioErrorCount: nat
    /** The device at the other end; the driver never reads it. */
    var controller: Controller
    /** How many bus writes have failed. */
    ghost var faults: nat

    constructor (c: Controller)
      ensures controller == c && address == 0 && !ioError
    {
      address, backlight, ioError, ioErrorCount, controller, faults := 0, false, false, 0, c, 0;
    }

    /** i2c_master_write_to_device of one byte: a failed write may still have reached the expander. */
    method BusWrite(out: bv8) returns (err: Err)
      modifies this`controller, this`faults
      ensures err == Ok || err == BusError
      ensures faults == old(faults) + (if err == Ok then 0 else 1)
      ensures err == Ok ==> controller.pins == out
      ensures err == Ok ==> DrivenTo(old(controller), out, controller)
      ensures controller == old(controller) || DrivenTo(old(controller), out, controller)
    {
      var acked: bool, reached: bool, oldData: bool, oldRs: bool := *, *, *, *;
      err := if acked then Ok else BusError;
      faults := faults + (if acked then 0 else 1);
      if acked || reached {
        controller := Drive(controller, out, Glitch(oldData, oldRs));
      }
    }

    /** i2c_write_raw: refused while the latch is set; a failure sets it. */
    method WriteRaw(byte: bv8) returns (err: Err)
      modifies this`controller, this`ioError, this`ioErrorCount, this`faults
      ensures old(ioError) ==> err == InvalidState && controller == old(controller) && ioErrorCount == old(ioErrorCount)
      ensures ioError == (old(ioError) || err != Ok)
      ensures !old(ioError) ==> ioErrorCount == old(ioErrorCount) + (if err == Ok then 0 else 1)
      ensures !old(ioError) ==>
        exists out :: WithBacklight(byte, out) &&
          (DrivenTo(old(controller), out, controller) || (err != Ok && controller == old(controller)))
      ensures FailsOnFaults(old(ioError), err, old(faults), faults)
      ensures err == Ok ==> controller.pins == byte | (if backlight then BIT_BACKLIGHT else 0x00)
    {
      if ioError {
        return InvalidState;
      }
      var out := byte | (if backlight then BIT_BACKLIGHT else 0x00);
      assert WithBacklight(byte, out);
      err := BusWrite(out);
      if err != Ok {
        ioError := true;
        ioErrorCount := ioErrorCount + 1;
      }
    }

    /** pulse_enable. */
    method PulseEnable(byte: bv8) returns (err: Err)
      modifies this`controller, this`ioError, this`ioErrorCount, this`faults
      ensures ioError == (old(ioError) || err != Ok)
      ensures old(ioError) ==> err == InvalidState && controller == old(controller)
      ensures !old(ioError) && err == Ok ==> Pulsed(old(controller), Nibble(byte), controller)
      ensures !old(ioError) && err != Ok ==> PulseBroken(old(controller), Nibble(byte), controller)
      ensures FailsOnFaults(old(ioError), err, old(faults), faults)
      ensures err == Ok ==> controller.pins == (byte & !BIT_EN) | (if backlight then BIT_BACKLIGHT else 0x00)
    {
      err := WriteRaw(byte | BIT_EN);
      if err != Ok {
        return;
      }
      RisingIsNoEdge(old(controller), byte, controller);
      ghost var raised := controller;
      err := WriteRaw(byte & !BIT_EN);
      if controller != raised {
        FallingIsOneEdge(old(controller), raised, byte, controller);
      }
    }

    /** send_nibble: the low four bits of the argument never reach the control lines. */
    method SendNibble(nibbleHigh: bv8, mode: bv8) returns (err: Err)
      modifies this`controller, this`ioError, this`ioErrorCount, this`faults
      ensures ioError == (old(ioError) || err != Ok)
      ensures old(ioError) ==> err == InvalidState && controller == old(controller)
      ensures !old(ioError) && err == Ok ==>
        Pulsed(old(controller), Transfer(RsHigh(mode), nibbleHigh & 0xF0), controller)
      ensures !old(ioError) && err != Ok ==>
        PulseBroken(old(controller), Transfer(RsHigh(mode), nibbleHigh & 0xF0), controller)
      ensures FailsOnFaults(old(ioError), err, old(faults), faults)
      ensures err == Ok ==> Lit(controller, backlight)
    {
      var byte := (nibbleHigh & 0xF0) | (mode & 0x03);
      MaskedNibble(nibbleHigh, mode);
      err := PulseEnable(byte);
      LightKept(nibbleHigh, mode);
    }

    /** send_byte: high nibble first. */
    method SendByte(value: bv8, mode: bv8) returns (err: Err)
      requires KeepsFourBits(RsHigh(mode), value)
      modifies this`controller, this`ioError, this`ioErrorCount, this`faults
      ensures ioError == (old(ioError) || err != Ok)
      ensures old(ioError) ==> err == InvalidState && controller == old(controller)
      ensures !old(ioError) && Aligned(old(controller)) ==>
        ByteSent(old(controller), Transfer(RsHigh(mode), value), controller, err)
      ensures Step(Link(old(ioError), old(controller)), Send(RsHigh(mode), value), Link(ioError, controller))
      ensures FailsOnFaults(old(ioError), err, old(faults), faults)
      ensures err == Ok ==> Lit(controller, backlight)
    {
      err := SendNibble(value & 0xF0, mode);
      HighNibble(value);
      if err == Ok {
        err := SendLowNibble(value, mode, old(controller));
      } else if !old(ioError) && Aligned(old(controller)) {
        HighNibbleLost(old(controller), RsHigh(mode), value, controller, err);
      }
    }

    /** The second half of send_byte; `start` is the display before the first half. */
    method SendLowNibble(value: bv8, mode: bv8, ghost start: Controller) returns (err: Err)
      requires KeepsFourBits(RsHigh(mode), value)
      requires !ioError && Pulsed(start, Transfer(RsHigh(mode), value & 0xF0), controller)
      modifies this`controller, this`ioError, this`ioErrorCount, this`faults
      ensures ioError == (err != Ok)
      ensures Aligned(start) ==> ByteSent(start, Transfer(RsHigh(mode), value), controller, err)
      ensures FailsOnFaults(false, err, old(faults), faults)
      ensures err == Ok ==> Lit(controller, backlight)
    {
      ghost var half := controller;
      LowNibble(value);
      err := SendNibble((value << 4) & 0xF0, mode);
      if Aligned(start) {
        LowNibbleEnds(start, half, controller, RsHigh(mode), value, err);
      }
    }

    /** hd44780_bring_up: from any state of the display. */
    method BringUp(clear: bool) returns (err: Err)
      requires !ioError
      modifies this`controller, this`ioError, this`ioErrorCount, this`faults
      ensures ioError == (err != Ok)
      ensures err == Ok ==> Aligned(controller)
      ensures err == Ok ==> DecodedLast(old(controller).decoded, controller.decoded, BringUpBytes(clear))
      ensures FailsOnFaults(false, err, old(faults), faults)
    {
      err := ResetNibbles();
      if err != Ok { return; }
      ghost var start := controller.decoded;
      err := SendByte(CMD_FUNCTION_SET, 0);
      if err != Ok { return; }
      if clear {
        err := SendByte(CMD_DISPLAY_OFF, 0);
        if err != Ok { return; }
        err := SendByte(CMD_CLEAR, 0);
        if err != Ok { return; }
      }
      err := SendByte(CMD_ENTRY_MODE, 0);
      if err != Ok { return; }
      if !clear {
        err := SendByte(CMD_HOME, 0);
        if err != Ok { return; }
      }
      err := SendByte(CMD_DISPLAY_ON, 0);
      if err != Ok { return; }
      assert controller.decoded == start + BringUpBytes(clear);
      DecodedLastAfterNoise(old(controller).decoded, start, controller.decoded, BringUpBytes(clear));
    }

    /** The first four steps of Figure 24: 0x3, 0x3, 0x3, 0x2. */
    method ResetNibbles() returns (err: Err)
      requires !ioError
      modifies this`controller, this`ioError, this`ioErrorCount, this`faults
      ensures ioError == (err != Ok)
      ensures err == Ok ==> Aligned(controller) && old(controller).decoded <= controller.decoded
      ensures FailsOnFaults(false, err, old(faults), faults)
    {
      ghost var c0 := controller;
      err := SendNibble(0x30, 0);
      if err != Ok { return; }
      ResetArguments();
      PulseAdvancesReset(c0, 0, controller);
      ghost var c1 := controller;
      err := SendNibble(0x30, 0);
      if err != Ok { return; }
      PulseAdvancesReset(c1, 1, controller);
      ghost var c2 := controller;
      err := SendNibble(0x30, 0);
      if err != Ok { return; }
      PulseAdvancesReset(c2, 2, controller);
      ghost var c3 := controller;
      err := SendNibble(0x20, 0);
      if err != Ok { return; }
      PulseSelectsFourBits(c3, controller);
    }

    /** lcd_resync. */
    method Resync() returns (err: Err)
      modifies this`controller, this`ioError, this`ioErrorCount, this`faults
      ensures address == 0 ==> err == InvalidState && controller == old(controller) && ioError == old(ioError)
      ensures address != 0 ==> ioError == (err != Ok)
      ensures err == Ok ==> Aligned(controller)
      ensures err == Ok ==> DecodedLast(old(controller).decoded, controller.decoded, BringUpBytes(false))
      ensures address != 0 ==> Step(Link(old(ioError), old(controller)), Resynchronise, Link(ioError, controller))
      ensures address != 0 ==> FailsOnFaults(false, err, old(faults), faults)
    {
      if address == 0 {
        return InvalidState;
      }
      ioError := false;
      err := WriteRaw(0x00);
      if err == Ok {
        ghost var start := controller.decoded;
        err := BringUp(false);
        if err == Ok {
          DecodedLastAfterNoise(old(controller).decoded, start, controller.decoded, BringUpBytes(false));
        }
      }
    }

    /** lcd_init once the address is known: the clearing write's result is ignored. */
    method Init(addr: bv8) returns (err: Err)
      requires addr != 0
      modifies this
      ensures address == addr && backlight && ioError == (err != Ok)
      ensures err == Ok ==> Aligned(controller)
      ensures err == Ok ==> DecodedLast(old(controller).decoded, controller.decoded, BringUpBytes(true))
      ensures old(faults) == faults ==> err == Ok
    {
      ioError, backlight, address := false, true, addr;
      var ignored := BusWrite(0x00);
      ghost var start := controller.decoded;
      err := BringUp(true);
      if err == Ok {
        DecodedLastAfterNoise(old(controller).decoded, start, controller.decoded, BringUpBytes(true));
      }
    }

    /** lcd_backlight: a write with E low. */
    method SetBacklight(on: bool)
      modifies this
      ensures address == old(address) && backlight == on
      ensures old(ioError) ==> ioError && controller == old(controller)
      ensures !old(ioError) && Aligned(old(controller)) ==> BacklightSet(old(controller), controller, ioError)
      ensures Step(Link(old(ioError), old(controller)), Light, Link(ioError, controller))
      ensures !old(ioError) ==> (ioError <==> faults > old(faults))
      ensures !ioError ==> Lit(controller, on)
    {
      backlight := on;
      var err := WriteRaw(0x00);
    }
  }

  // ---------------------------------------------------------------- facts the methods use

  /** The byte with the backlight bit merged in, whatever the backlight is. */
  predicate WithBacklight(byte: bv8, out: bv8) {
    out == byte || out == byte | BIT_BACKLIGHT
  }

  /** A call fails exactly when a write on the bus fails, or it is refused without one. */
  predicate FailsOnFaults(latched: bool, err: Err, before: nat, after: nat) {
    if latched then err != Ok && after == before else before <= after && (err == Ok <==> after == before)
  }

  /** The backlight line is as the driver was told. */
  predicate Lit(c: Controller, backlight: bool) {
    c.pins & BIT_BACKLIGHT != 0 <==> backlight
  }

  lemma LightKept(nibbleHigh: bv8, mode: bv8)
    ensures ((((nibbleHigh & 0xF0) | (mode & 0x03)) & !BIT_EN) | BIT_BACKLIGHT) & BIT_BACKLIGHT != 0
    ensures ((((nibbleHigh & 0xF0) | (mode & 0x03)) & !BIT_EN) | 0x00) & BIT_BACKLIGHT == 0
  {
  }

  ghost predicate BacklightSet(c: Controller, after: Controller, failed: bool) {
    after.decoded == c.decoded && (!failed ==> Aligned(after))
  }

  lemma RisingIsNoEdge(c: Controller, byte: bv8, after: Controller)
    requires exists out :: WithBacklight(byte | BIT_EN, out) && DrivenTo(c, out, after)
    ensures EnableHigh(after.pins) && Nibble(after.pins) == Nibble(byte) && after == c.(pins := after.pins)
  {
  }

  lemma FallingPins(byte: bv8, out: bv8)
    requires WithBacklight(byte & !BIT_EN, out)
    ensures !EnableHigh(out) && Nibble(out) == Nibble(byte)
  {
  }

  lemma FallingIsOneEdge(c: Controller, raised: Controller, byte: bv8, after: Controller)
    requires EnableHigh(raised.pins) && Nibble(raised.pins) == Nibble(byte) && raised == c.(pins := raised.pins)
    requires exists out :: WithBacklight(byte & !BIT_EN, out) && DrivenTo(raised, out, after)
    ensures Pulsed(c, Nibble(byte), after)
  {
    var out :| WithBacklight(byte & !BIT_EN, out) && DrivenTo(raised, out, after);
    FallingPins(byte, out);
    EdgeLatches(c, raised, out, Nibble(byte), after);
  }

  lemma EdgeLatches(c: Controller, raised: Controller, out: bv8, n: Transfer, after: Controller)
    requires EnableHigh(raised.pins) && !EnableHigh(out) && Nibble(raised.pins) == n && Nibble(out) == n
    requires raised == c.(pins := raised.pins) && DrivenTo(raised, out, after)
    ensures Pulsed(c, n, after)
  {
    var g: Glitch :| after == Drive(raised, out, g);
    assert after == Clock(raised, n, g).(pins := out);
    ClockIgnoresPins(c, raised.pins, n, g);
    assert after == Clock(c, n, g).(pins := out);
  }

  lemma ClockIgnoresPins(c: Controller, pins: bv8, n: Transfer, g: Glitch)
    ensures Clock(c.(pins := pins), n, g) == Clock(c, n, g).(pins := pins)
  {
  }

  lemma MaskedNibble(nibbleHigh: bv8, mode: bv8)
    ensures Nibble((nibbleHigh & 0xF0) | (mode & 0x03)) == Transfer(RsHigh(mode), nibbleHigh & 0xF0)
  {
  }

  lemma ResetArguments()
    ensures Transfer(RsHigh(0), (0x30 as bv8) & 0xF0) == RESET
    ensures Transfer(RsHigh(0), (0x20 as bv8) & 0xF0) == Transfer(false, 0x20)
  {
  }

  lemma HighNibble(value: bv8)
    ensures (value & 0xF0) & 0xF0 == value & 0xF0
  {
  }

  lemma LowNibble(value: bv8)
    ensures ((value << 4) & 0xF0) & 0xF0 == (value << 4) & 0xF0
  {
  }

  lemma HighNibbleArrives(c: Controller, rs: bool, value: bv8, half: Controller)
    requires Aligned(c) && KeepsFourBits(rs, value) && Pulsed(c, Transfer(rs, value & 0xF0), half)
    ensures half.mode.Bits4? && half.pending == First(Transfer(rs, value & 0xF0)) && half.decoded == c.decoded
  {
  }

  lemma HighNibbleLost(c: Controller, rs: bool, value: bv8, after: Controller, err: Err)
    requires Aligned(c) && KeepsFourBits(rs, value) && !err.Ok? && PulseBroken(c, Transfer(rs, value & 0xF0), after)
    ensures ByteSent(c, Transfer(rs, value), after, err)
  {
    if after != c.(pins := after.pins) {
      HighNibbleArrives(c, rs, value, after);
    }
  }

  lemma LowNibbleArrives(c: Controller, rs: bool, value: bv8, half: Controller, after: Controller)
    requires Aligned(c) && KeepsFourBits(rs, value) && Pulsed(half, Transfer(rs, (value << 4) & 0xF0), after)
    requires half.mode.Bits4? && half.pending == First(Transfer(rs, value & 0xF0)) && half.decoded == c.decoded
    ensures Aligned(after) && after.decoded == c.decoded + [Transfer(rs, value)]
  {
    var low := Transfer(rs, (value << 4) & 0xF0);
    var g: Glitch :| after == Clock(half, low, g).(pins := after.pins);
    TwoNibblesMakeTheByte(c, rs, value, g, g);
    ClockIgnoresPins(Clock(c, Transfer(rs, value & 0xF0), g), half.pins, low, g);
    assert half == Clock(c, Transfer(rs, value & 0xF0), g).(pins := half.pins);
  }

  lemma LowNibbleEnds(c: Controller, half: Controller, after: Controller, rs: bool, value: bv8, err: Err)
    requires Aligned(c) && KeepsFourBits(rs, value) && Pulsed(c, Transfer(rs, value & 0xF0), half)
    requires err.Ok? ==> Pulsed(half, Transfer(rs, (value << 4) & 0xF0), after)
    requires !err.Ok? ==> PulseBroken(half, Transfer(rs, (value << 4) & 0xF0), after)
    ensures ByteSent(c, Transfer(rs, value), after, err)
  {
    HighNibbleArrives(c, rs, value, half);
    if Pulsed(half, Transfer(rs, (value << 4) & 0xF0), after) {
      LowNibbleArrives(c, rs, value, half, after);
    }
  }

  lemma PulseAdvancesReset(c: Controller, k: nat, after: Controller)
    requires k < 3 && ResetProgress(c, k) && Pulsed(c, RESET, after)
    ensures ResetProgress(after, k + 1) && c.decoded <= after.decoded
  {
    var g: Glitch :| after == Clock(c, RESET, g).(pins := after.pins);
    ResetStep(c, k, g);
  }

  lemma PulseSelectsFourBits(c: Controller, after: Controller)
    requires c.mode.Bits8? && Pulsed(c, Transfer(false, 0x20), after)
    ensures Aligned(after) && after.decoded == c.decoded
  {
    var g: Glitch :| after == Clock(c, Transfer(false, 0x20), g).(pins := after.pins);
    SelectFourBits(c, g);
  }

  // ---------------------------------------------------------------- whole runs

  ghost predicate Run(links: seq<Link>, ops: seq<Op>) {
    |links| == |ops| + 1 && forall i :: 0 <= i < |ops| ==> Step(links[i], ops[i], links[i + 1])
  }

  function Bytes(op: Op): seq<Transfer> {
    if op.Send? then [Transfer(op.rs, op.value)] else []
  }

  /** The bytes handed to send_byte by the calls from moment `r` up to moment `n`. */
  function Given(ops: seq<Op>, r: nat, n: nat): seq<Transfer>
    requires r <= n <= |ops|
  {
    if r == n then [] else Given(ops, r, n - 1) + Bytes(ops[n - 1])
  }

  /** The moment just after the last resynchronisation before moment `n`, or the start. */
  function LastResync(ops: seq<Op>, n: nat): (r: nat)
    requires n <= |ops|
    ensures r <= n && (r > 0 ==> ops[r - 1].Resynchronise?)
    ensures forall i :: r <= i < n ==> !ops[i].Resynchronise?
  {
    if n == 0 || ops[n - 1].Resynchronise? then n else LastResync(ops, n - 1)
  }

  /** A run from a display just brought up, or latched. */
  ghost predicate RunFromBringUp(links: seq<Link>, ops: seq<Op>) {
    Run(links, ops) && (links[0].ioError || Aligned(links[0].controller))
  }

  /** Whenever the latch is clear the display is aligned and has decoded, since the last
      resynchronisation, exactly the bytes given to it since. */
  lemma {:induction false} DecodesExactlyTheGiven(links: seq<Link>, ops: seq<Op>, n: nat)
    requires RunFromBringUp(links, ops) && n <= |ops| && !links[n].ioError
    ensures var r := LastResync(ops, n);
            && !links[r].ioError && Aligned(links[n].controller)
            && links[n].controller.decoded == links[r].controller.decoded + Given(ops, r, n)
    decreases n
  {
    if n > 0 {
      assert Step(links[n - 1], ops[n - 1], links[n]);
      if !ops[n - 1].Resynchronise? {
        DecodesExactlyTheGiven(links, ops, n - 1);
      }
    }
  }

  /** While the latch is set, either the last resynchronisation failed, or the latch was set by a call `m`
      since: the display has decoded everything given between the two and possibly that call's own byte.
      Nothing has reached it after that. */
  lemma {:induction false} LatchFreezesTheDisplay(links: seq<Link>, ops: seq<Op>, n: nat) returns (m: nat)
    requires RunFromBringUp(links, ops) && n <= |ops| && links[n].ioError
    ensures var r := LastResync(ops, n);
            if links[r].ioError
            then m == r && forall i :: r <= i <= n ==> links[i] == links[r]
            else r <= m < n && LatchedDuring(links, ops, r, m, n)
    decreases n
  {
    var r := LastResync(ops, n);
    m := r;
    if r < n {
      assert Step(links[n - 1], ops[n - 1], links[n]);
      if links[n - 1].ioError {
        m := LatchFreezesTheDisplay(links, ops, n - 1);
        if !links[r].ioError {
          LatchedOn(links, ops, r, m, n);
        }
      } else {
        m := n - 1;
        LatchSets(links, ops, r, n);
      }
    }
  }

  lemma LatchedOn(links: seq<Link>, ops: seq<Op>, r: nat, m: nat, n: nat)
    requires |links| == |ops| + 1 && r <= m < n - 1 && n <= |ops|
    requires LatchedDuring(links, ops, r, m, n - 1) && links[n] == links[n - 1]
    ensures LatchedDuring(links, ops, r, m, n)
  {
  }

  lemma LatchSets(links: seq<Link>, ops: seq<Op>, r: nat, n: nat)
    requires RunFromBringUp(links, ops) && 0 < n <= |ops| && r == LastResync(ops, n) < n
    requires !links[n - 1].ioError && links[n].ioError
    ensures !links[r].ioError && LatchedDuring(links, ops, r, n - 1, n)
  {
    assert Step(links[n - 1], ops[n - 1], links[n]);
    DecodesExactlyTheGiven(links, ops, n - 1);
  }

  /** Call `m` set the latch; from moment `r` to it the display had the given bytes, and nothing since. */
  ghost predicate LatchedDuring(links: seq<Link>, ops: seq<Op>, r: nat, m: nat, n: nat)
    requires |links| == |ops| + 1 && r <= m < n <= |ops|
  {
    var decoded := links[n].controller.decoded;
    && !links[m].ioError && (forall i :: m < i <= n ==> links[i] == links[m + 1])
    && (|| decoded == links[r].controller.decoded + Given(ops, r, m)
        || decoded == links[r].controller.decoded + Given(ops, r, m + 1))
  }

  /** The whole cycle: however the link failed before, a resynchronisation that reports success is followed
      by exactly the bytes given after it, for as long as the latch stays clear. */
  lemma ExactAgainAfterResync(links: seq<Link>, ops: seq<Op>, k: nat, n: nat)
    requires RunFromBringUp(links, ops) && k < n <= |ops| && ops[k].Resynchronise? && !links[n].ioError
    requires forall i :: k < i < n ==> !ops[i].Resynchronise?
    ensures !links[k + 1].ioError
    ensures DecodedLast(links[k].controller.decoded, links[n].controller.decoded, BringUpBytes(false) + Given(ops, k + 1, n))
  {
    assert LastResync(ops, n) == k + 1;
    DecodesExactlyTheGiven(links, ops, n);
    assert Step(links[k], ops[k], links[k + 1]);
    DecodedLastThen(links[k].controller.decoded, links[k + 1].controller.decoded, BringUpBytes(false), Given(ops, k + 1, n));
  }

  lemma DecodedLastThen(before: seq<Transfer>, after: seq<Transfer>, bytes: seq<Transfer>, more: seq<Transfer>)
    requires DecodedLast(before, after, bytes)
    ensures DecodedLast(before, after + more, bytes + more)
  {
    var noise :| after == before + noise + bytes;
    assert after + more == before + noise + (bytes + more);
  }

  // ---------------------------------------------------------------- what the bring-up shows

  predicate Usable(p: Panel) { p.on && p.twoLines && p.movesRight && p.atHome }

  /** From any state of the panel the bring-up bytes leave it on, with two lines, the cursor at the start and
      moving right; blank after an initialisation, and with its text kept in a resynchronisation. */
  lemma BringUpMakesUsable(p: Panel, clear: bool)
    ensures var q := ExecuteAll(p, BringUpBytes(clear)); Usable(q) && q.blank == (clear || p.blank)
  {
    var b := BringUpBytes(clear);
    var p1 := Execute(p, b[0]);
    var p2 := Execute(p1, b[1]);
    var p3 := Execute(p2, b[2]);
    var p4 := Execute(p3, b[3]);
    assert b[..1][..0] == [] && b[..2][..1] == b[..1] && b[..3][..2] == b[..2] && b[..4][..3] == b[..3];
    assert ExecuteAll(p, b[..1]) == p1;
    assert ExecuteAll(p, b[..2]) == p2;
    assert ExecuteAll(p, b[..3]) == p3;
    assert ExecuteAll(p, b[..4]) == p4;
    assert clear ==> b[..5] == b && ExecuteAll(p, b) == Execute(p4, b[4]);
    assert !clear ==> b[..4] == b;
  }

  /** So after a successful resynchronisation the panel shows what the bytes given after it make of a usable
      panel, whatever noise the failed link had made of the writes before. */
  lemma UsableAfterResync(links: seq<Link>, ops: seq<Op>, k: nat, n: nat, start: Panel) returns (p: Panel)
    requires RunFromBringUp(links, ops) && k < n <= |ops| && ops[k].Resynchronise? && !links[n].ioError
    requires forall i :: k < i < n ==> !ops[i].Resynchronise?
    ensures Usable(p) && ExecuteAll(start, links[n].controller.decoded) == ExecuteAll(p, Given(ops, k + 1, n))
  {
    ExactAgainAfterResync(links, ops, k, n);
    var bytes, given := BringUpBytes(false), Given(ops, k + 1, n);
    var noise :| links[n].controller.decoded == links[k].controller.decoded + noise + (bytes + given);
    var before := links[k].controller.decoded + noise;
    ExecuteThen(start, before, bytes + given);
    var q := ExecuteAll(start, before);
    ExecuteThen(q, bytes, given);
    BringUpMakesUsable(q, false);
    p := ExecuteAll(q, bytes);
  }
}
