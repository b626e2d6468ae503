/** Port settings as unix.c reads and changes them, and the modem-state byte it reports. */
module Ports {
  import opened Bitwise
  import opened Checksums

  // ---------- The terminal attributes and the modem lines ----------

  /** The speed_t constant B<rate>; the table below lists those the program knows. */
  datatype Speed = B(rate: nat)

  const KNOWN_RATES: set<nat> :=
    {50, 75, 110, 134, 150, 200, 300, 600, 1200, 1800, 2400, 4800, 9600, 19200, 38400, 57600, 115200, 230400, 460800}

  datatype CharSize = CS5 | CS6 | CS7 | CS8

  datatype Termios = Termios(ospeed: Speed, ispeed: Speed, csize: CharSize, parenb: bool, parodd: bool, cstopb: bool,
                             crtscts: bool, ixon: bool, ixoff: bool)

  datatype Lines = Lines(dtr: bool, rts: bool, car: bool, rng: bool, dsr: bool, cts: bool)

  datatype Port = Port(termios: Termios, lines: Lines)

  // COM-port option values (RFC 2217)
  const NO_PARITY: byte := 1
  const ODD_PARITY: byte := 2
  const EVEN_PARITY: byte := 3
  const ONE_STOP_BIT: byte := 1
  const TWO_STOP_BITS: byte := 2
  const FLOW_REQ: byte := 0
  const FLOW_NONE: byte := 1
  const FLOW_XONXOFF: byte := 2
  const FLOW_HARDWARE: byte := 3
  const BREAK_REQ: byte := 4
  const BREAK_ON: byte := 5
  const BREAK_OFF: byte := 6
  const DTR_REQ: byte := 7
  const DTR_ON: byte := 8
  const DTR_OFF: byte := 9
  const RTS_REQ: byte := 10
  const RTS_ON: byte := 11
  const RTS_OFF: byte := 12
  const INFLOW_REQ: byte := 13
  const INFLOW_NONE: byte := 14
  const INFLOW_XONXOFF: byte := 15
  const INFLOW_HARDWARE: byte := 16

  // ---------- Reading settings ----------

  function SpeedOf(t: Termios): (rate: nat)
    ensures rate < 0x1_0000_0000
  {
    if t.ospeed.rate in KNOWN_RATES then t.ospeed.rate else 0
  }

  function DataSizeOf(t: Termios): byte {
    match t.csize case CS5 => 5 case CS6 => 6 case CS7 => 7 case CS8 => 8
  }

  function ParityOf(t: Termios): byte {
    if !t.parenb then NO_PARITY else if t.parodd then ODD_PARITY else EVEN_PARITY
  }

  function StopSizeOf(t: Termios): byte { if !t.cstopb then ONE_STOP_BIT else TWO_STOP_BITS }

  function OutFlowOf(t: Termios): byte {
    if t.ixon then FLOW_XONXOFF else if t.crtscts then FLOW_HARDWARE else FLOW_NONE
  }

  function InFlowOf(t: Termios): byte {
    if t.ixoff then INFLOW_XONXOFF else if t.crtscts then INFLOW_HARDWARE else INFLOW_NONE
  }

  function FlowControlOf(port: Port, which: byte): byte {
    if which == DTR_REQ then (if port.lines.dsr then DTR_ON else DTR_OFF)
    else if which == RTS_REQ then (if port.lines.cts then RTS_ON else RTS_OFF)
    else if which == INFLOW_REQ then InFlowOf(port.termios)
    else OutFlowOf(port.termios)
  }

  // ---------- Changing settings ----------

  function WithSpeed(t: Termios, rate: nat): Termios {
    var speed := if rate in KNOWN_RATES then B(rate) else B(9600);
    t.(ospeed := speed, ispeed := speed)
  }

  function WithDataSize(t: Termios, size: byte): Termios {
    t.(csize := if size == 5 then CS5 else if size == 6 then CS6 else if size == 7 then CS7 else CS8)
  }

  function WithParity(t: Termios, parity: byte): Termios {
    if parity == ODD_PARITY then t.(parenb := true, parodd := true)
    else if parity == EVEN_PARITY then t.(parenb := true, parodd := false)
    else t.(parenb := false)
  }

  function WithStopSize(t: Termios, size: byte): Termios { t.(cstopb := size == TWO_STOP_BITS) }

  function WithFlowControl(port: Port, how: byte): Port {
    var t, l := port.termios, port.lines;
    if how == FLOW_NONE then port.(termios := t.(ixon := false, ixoff := false, crtscts := false))
    else if how == FLOW_XONXOFF then port.(termios := t.(ixon := true, ixoff := true, crtscts := false))
    else if how == FLOW_HARDWARE then port.(termios := t.(ixon := false, ixoff := false, crtscts := true))
    else if how == DTR_ON then port.(lines := l.(dtr := true))
    else if how == DTR_OFF then port.(lines := l.(dtr := false))
    else if how == RTS_ON then port.(lines := l.(rts := true))
    else if how == RTS_OFF then port.(lines := l.(rts := false))
    else port
  }

  /** DTR and RTS are ours; the other four lines are the peer's. */
  function WithInputs(lines: Lines, inputs: Lines): Lines { inputs.(dtr := lines.dtr, rts := lines.rts) }

  // ---------- The modem-state byte ----------

  const RLSD: byte := 128
  const RING: byte := 64
  const DSR: byte := 32
  const CTS: byte := 16
  const RLSD_DELTA: byte := 8
  const RING_TRAIL: byte := 4
  const DSR_DELTA: byte := 2
  const CTS_DELTA: byte := 1

  /** The number with these bits, lowest first. */
  function Assemble(bits: seq<bool>): (n: nat)
    ensures n < Pow2(|bits|)
  {
    if bits == [] then 0 else (if bits[0] then 1 else 0) + 2 * Assemble(bits[1..])
  }

  lemma {:induction false} AssembledBit(bits: seq<bool>, k: nat)
    requires k < |bits|
    ensures Drop(Assemble(bits), k) % 2 == (if bits[k] then 1 else 0)
  {
    if k > 0 {
      AssembledBit(bits[1..], k - 1);
    }
  }

  /** Adding a power of two whose bit is clear sets that bit and no other. */
  lemma {:induction false} SettingAddsPower(bits: seq<bool>, k: nat)
    requires k < |bits| && !bits[k]
    ensures Assemble(bits[k := true]) == Assemble(bits) + Pow2(k)
  {
    if k == 0 {
      assert bits[0 := true][1..] == bits[1..];
    } else {
      assert bits[k := true][1..] == bits[1..][k - 1 := true];
      SettingAddsPower(bits[1..], k - 1);
    }
  }

  /** A byte and its eight bits, lowest first. */
  ghost predicate Spells(b: byte, bits: seq<bool>) { |bits| == 8 && b as nat == Assemble(bits) }

  lemma AddingClearBit(b: byte, bits: seq<bool>, k: nat)
    requires Spells(b, bits) && k < 8 && !bits[k]
    ensures b as nat + Pow2(k) < 256 && Spells((b as nat + Pow2(k)) as byte, bits[k := true])
  {
    Powers();
    SettingAddsPower(bits, k);
  }

  lemma BitOfSpelled(b: byte, bits: seq<bool>, k: nat)
    requires Spells(b, bits) && k < 8
    ensures BitOf(b, k) == bits[k]
  {
    AssembledBit(bits, k);
  }

  lemma BitWeights()
    ensures Pow2(7) == 128 && Pow2(6) == 64 && Pow2(5) == 32 && Pow2(4) == 16
    ensures Pow2(3) == 8 && Pow2(2) == 4 && Pow2(1) == 2 && Pow2(0) == 1
  {
    assert Pow2(4) == 16;
  }

  /** Bits of the modem state, lowest first: the changes since the previous state, then the lines. */
  function StateBits(lines: Lines, previous: byte): seq<bool> {
    [lines.cts != BitOf(previous, 4), lines.dsr != BitOf(previous, 5),
     lines.rng != BitOf(previous, 6), lines.car != BitOf(previous, 7),
     lines.cts, lines.dsr, lines.rng, lines.car]
  }

  function ModemStateOf(lines: Lines, previous: byte): byte {
    Powers();
    Assemble(StateBits(lines, previous)) as byte
  }

  const NO_BITS: seq<bool> := [false, false, false, false, false, false, false, false]

  lemma EightUpdates(b7: bool, b6: bool, b5: bool, b4: bool, b3: bool, b2: bool, b1: bool, b0: bool)
    ensures NO_BITS[7 := b7][6 := b6][5 := b5][4 := b4][3 := b3][2 := b2][1 := b1][0 := b0]
         == [b0, b1, b2, b3, b4, b5, b6, b7]
  {}

  lemma AllStateBits(lines: Lines, previous: byte)
    ensures StateBits(lines, previous) ==
      NO_BITS[7 := lines.car][6 := lines.rng][5 := lines.dsr][4 := lines.cts]
             [3 := lines.car != BitOf(previous, 7)][2 := lines.rng != BitOf(previous, 6)]
             [1 := lines.dsr != BitOf(previous, 5)][0 := lines.cts != BitOf(previous, 4)]
  {
    hide BitOf;
    EightUpdates(lines.car, lines.rng, lines.dsr, lines.cts,
                 lines.car != BitOf(previous, 7), lines.rng != BitOf(previous, 6),
                 lines.dsr != BitOf(previous, 5), lines.cts != BitOf(previous, 4));
  }

  lemma {:induction false} NoBitsAreZero(bits: seq<bool>)
    requires forall i :: 0 <= i < |bits| ==> !bits[i]
    ensures Assemble(bits) == 0
  {
    if bits != [] {
      NoBitsAreZero(bits[1..]);
    }
  }

  lemma NoBitsSpellZero()
    ensures Spells(0, NO_BITS)
  {
    NoBitsAreZero(NO_BITS);
  }

  lemma SpelledState(b: byte, lines: Lines, previous: byte)
    requires Spells(b, StateBits(lines, previous))
    ensures b == ModemStateOf(lines, previous)
  {
    hide StateBits;
  }

  /** One conditional addition. */
  method AddFlag(state: byte, ghost bits: seq<bool>, flag: bool, weight: byte, k: nat)
    returns (state': byte, ghost bits': seq<bool>)
    requires Spells(state, bits) && k < 8 && !bits[k] && weight as nat == Pow2(k)
    ensures bits' == bits[k := flag] && Spells(state', bits')
  {
    state', bits' := state, bits;
    if flag {
      AddingClearBit(state, bits, k);
      state', bits' := state + weight, bits[k := true];
    }
  }

  /** The four line bits, one addition each. */
  method AccumulateLines(lines: Lines) returns (state: byte, ghost bits: seq<bool>)
    ensures Spells(state, bits)
    ensures bits == NO_BITS[7 := lines.car][6 := lines.rng][5 := lines.dsr][4 := lines.cts]
  {
    state, bits := 0, NO_BITS;
    NoBitsSpellZero();
    BitWeights();
    hide Spells, Pow2;
    state, bits := AddFlag(state, bits, lines.car, RLSD, 7);
    state, bits := AddFlag(state, bits, lines.rng, RING, 6);
    state, bits := AddFlag(state, bits, lines.dsr, DSR, 5);
    state, bits := AddFlag(state, bits, lines.cts, CTS, 4);
  }

  method AccumulateState(lines: Lines, previous: byte) returns (state: byte)
    ensures state == ModemStateOf(lines, previous)
  {
    ghost var bits: seq<bool>;
    state, bits := AccumulateLines(lines);
    BitWeights();
    hide Spells, BitOf, Pow2, StateBits, ModemStateOf;
    BitOfSpelled(state, bits, 7);
    state, bits := AddFlag(state, bits, BitOf(state, 7) != BitOf(previous, 7), RLSD_DELTA, 3);
    BitOfSpelled(state, bits, 6);
    state, bits := AddFlag(state, bits, BitOf(state, 6) != BitOf(previous, 6), RING_TRAIL, 2);
    BitOfSpelled(state, bits, 5);
    state, bits := AddFlag(state, bits, BitOf(state, 5) != BitOf(previous, 5), DSR_DELTA, 1);
    BitOfSpelled(state, bits, 4);
    state, bits := AddFlag(state, bits, BitOf(state, 4) != BitOf(previous, 4), CTS_DELTA, 0);
    AllStateBits(lines, previous);
    SpelledState(state, lines, previous);
  }

  /** The open device: what tcsetattr and TIOCMSET leave behind for tcgetattr and TIOCMGET. */
  class SerialPort {
    var termios: Termios
    var lines: Lines

    function View(): Port reads this { Port(termios, lines) }

    constructor (port: Port)
      ensures View() == port
    {
      termios := port.termios;
      lines := port.lines;
    }

    /** Opening the device gives it the settings and lines found there. */
    method Open(port: Port)
      modifies this
      ensures View() == port
    {
      termios := port.termios;
      lines := port.lines;
    }

    /** The lines the other side drives change. */
    method LinesBecome(inputs: Lines)
      modifies this
      ensures View() == old(View()).(lines := WithInputs(old(lines), inputs))
    {
      lines := WithInputs(lines, inputs);
    }

    method SetPortSpeed(rate: nat)
      modifies this
      ensures View() == old(View()).(termios := WithSpeed(old(termios), rate))
    {
      var speed := B(9600);
      if rate in KNOWN_RATES {
        speed := B(rate);
      }
      termios := termios.(ospeed := speed);
      termios := termios.(ispeed := speed);
    }

    method SetPortDataSize(size: byte)
      modifies this
      ensures View() == old(View()).(termios := WithDataSize(old(termios), size))
    {
      var csize := CS8;
      if size == 5 {
        csize := CS5;
      } else if size == 6 {
        csize := CS6;
      } else if size == 7 {
        csize := CS7;
      }
      termios := termios.(csize := csize);
    }

    method SetPortParity(parity: byte)
      modifies this
      ensures View() == old(View()).(termios := WithParity(old(termios), parity))
    {
      if parity == ODD_PARITY {
        termios := termios.(parenb := true, parodd := true);
      } else if parity == EVEN_PARITY {
        termios := termios.(parenb := true, parodd := false);
      } else {
        termios := termios.(parenb := false);
      }
    }

    method SetPortStopSize(size: byte)
      modifies this
      ensures View() == old(View()).(termios := WithStopSize(old(termios), size))
    {
      termios := termios.(cstopb := false);
      if size == TWO_STOP_BITS {
        termios := termios.(cstopb := true);
      }
    }

    method SetPortFlowControl(how: byte)
      modifies this
      ensures View() == WithFlowControl(old(View()), how)
    {
      if how == FLOW_NONE || how == FLOW_XONXOFF || how == FLOW_HARDWARE {
        var xonxoff := how == FLOW_XONXOFF;
        termios := termios.(ixon := xonxoff, ixoff := xonxoff, crtscts := how == FLOW_HARDWARE);
      } else if how == DTR_ON || how == DTR_OFF {
        lines := lines.(dtr := how == DTR_ON);
      } else if how == RTS_ON || how == RTS_OFF {
        lines := lines.(rts := how == RTS_ON);
      }
    }

    /** The source's accumulation: no addition carries, so each delta test still sees the line bits. */
    method GetModemState(previous: byte) returns (state: byte)
      ensures state == ModemStateOf(lines, previous)
    {
      state := AccumulateState(lines, previous);
    }
  }
}
