/**
 * Every command from its bytes on: what it makes of the server and the port, and the bytes it is answered with,
 * for all kinds and all values.
 */
module Commands {
  import opened Bitwise
  import opened Ports
  import opened Telnet
  import opened TelnetStreams

  predicate PortOptionOn(s: Server) { s.options[44].ours.on || s.options[44].theirs.on }

  /** A reply with one value: IAC SB COM-PORT code, the value, IAC SE. */
  function OneByteAnswer(s: Server, code: byte, value: byte): seq<byte> {
    [255, 250, 44, code]
      + (if value == 255 then [255, 255]
         else if s.last == 13 && value != 10 && !s.options[0].ours.on then [0, value]
         else [value])
      + [255, 240]
  }

  lemma OneByteReply(s: Server, code: byte, value: byte)
    ensures SendReply(s, code, [value]) == Did(s.(last := value), OneByteAnswer(s, code, value))
  {
    assert [value][1..] == [] && EscWriteAll(s.SendsBinary(), value, []) == [];
    assert EscWriteAll(s.SendsBinary(), s.last, [value]) == EscWrite(s.SendsBinary(), s.last, value) + [];
  }

  // ---------- Single bytes ----------

  /** The receiver remembers the last byte it was given, whatever that belonged to. */
  lemma {:induction false} LastByteIsRemembered(s: Server, r: Receiver, bytes: seq<byte>)
    requires Sound(s, r)
    ensures RedirectAll(s, r, bytes).receiver.last == LastOf(r.last, bytes)
    decreases |bytes|
  {
    if bytes != [] {
      var one := EscRedirectChar(s, r, bytes[0]);
      assert one.receiver.last == bytes[0] by {
        hide HandleIACCommand, RedirectAll;
      }
      hide EscRedirectChar, Sound;
      LastByteIsRemembered(one.server, one.receiver, bytes[1..]);
    }
  }

  /**
   * Outside a command every byte is data for the device but IAC, which begins one, and, outside binary mode, a NUL
   * given right after a CR.
   */
  lemma PlainByteArrives(s: Server, r: Receiver, c: byte)
    requires Sound(s, r) && r.esc == Normal
    ensures var out := RedirectAll(s, r, [c]);
            && out.server == s && out.net == [] && out.commands == []
            && out.dev == (if c == 255 || (c == 0 && r.last == 13 && !s.options[0].theirs.on) then [] else [c])
            && (c == 255 <==> out.receiver.esc != Normal)
  {
    RedirectOne(s, r, c);
    hide RedirectAll;
  }

  /** IAC twice is one byte of data. */
  lemma DoubledIacArrives(s: Server, r: Receiver)
    requires Sound(s, r) && r.esc == Normal
    ensures RedirectAll(s, r, [255, 255]) == Redirected(s, r.(last := 255), [], [255], [])
  {
    RedirectOne(s, r, 255);
    var first := EscRedirectChar(s, r, 255);
    RedirectOne(first.server, first.receiver, 255);
    RedirectAppend(s, r, [255], [255]);
    assert [255] + [255] == [255 as byte, 255];
    hide RedirectAll;
  }

  // ---------- Received ----------

  /** Seven bytes are one command, but for the kinds that have a length of their own. */
  lemma SevenBytes(s: Server, r: Receiver, option: byte, kind: byte, value: byte)
    requires Sound(s, r) && r.esc == Normal && kind != 0 && kind != 1 && kind != 8 && kind != 9
    ensures var command := [255, 250, option, kind, value, 255, 240];
            var out := RedirectAll(s, r, command);
            && Dispatchable(command) && out.dev == [] && out.receiver.esc == Normal && out.commands == [command]
            && Did(out.server, out.net) == HandleIACCommand(s, command)
  {
    hide RedirectAll, HandleIACCommand, Sound;
    FixedCommandIsHandled(s, r, [255, 250, option, kind, value, 255, 240]);
  }

  lemma SixBytes(s: Server, r: Receiver, option: byte, kind: byte)
    requires Sound(s, r) && r.esc == Normal && (kind == 8 || kind == 9)
    ensures var command := [255, 250, option, kind, 255, 240];
            var out := RedirectAll(s, r, command);
            && Dispatchable(command) && out.dev == [] && out.receiver.esc == Normal && out.commands == [command]
            && Did(out.server, out.net) == HandleIACCommand(s, command)
  {
    hide RedirectAll, HandleIACCommand, Sound;
    FixedCommandIsHandled(s, r, [255, 250, option, kind, 255, 240]);
  }

  lemma TenBytes(s: Server, r: Receiver, option: byte, a: byte, b: byte, c: byte, d: byte)
    requires Sound(s, r) && r.esc == Normal
    ensures var command := [255, 250, option, 1, a, b, c, d, 255, 240];
            var out := RedirectAll(s, r, command);
            && Dispatchable(command) && out.dev == [] && out.receiver.esc == Normal && out.commands == [command]
            && Did(out.server, out.net) == HandleIACCommand(s, command)
  {
    hide RedirectAll, HandleIACCommand, Sound;
    FixedCommandIsHandled(s, r, [255, 250, option, 1, a, b, c, d, 255, 240]);
  }

  lemma SameAnswer(s: Server, s': Server, code: byte, value: byte)
    requires s'.last == s.last && s'.options == s.options
    ensures OneByteAnswer(s', code, value) == OneByteAnswer(s, code, value)
  {}

  /** With the option on, a command is performed and its reply is said. */
  lemma Served(s: Server, command: seq<byte>)
    requires ValidPlatform(s.platform) && PortOptionOn(s)
    requires Dispatchable(command) && command[1] == 250 && command[2] == 44
    ensures var (s', reply) := Perform(s, command);
            && SameBut(s, s') && (reply.SpeedReply? ==> reply.rate < 0x1_0000_0000)
            && HandleIACCommand(s, command) == Say(s', reply)
  {
    PerformLeaves(s, command);
    hide Perform, Say;
  }

  /** A reply of one value. */
  lemma ServedWithValue(s: Server, command: seq<byte>, code: byte, value: byte)
    requires ValidPlatform(s.platform) && PortOptionOn(s)
    requires Dispatchable(command) && command[1] == 250 && command[2] == 44
    requires Perform(s, command).1 == ByteReply(code, value)
    ensures HandleIACCommand(s, command)
         == Did(Perform(s, command).0.(last := value), OneByteAnswer(s, code, value))
  {
    hide Perform, OneByteAnswer, SendReply;
    Served(s, command);
    var s' := Perform(s, command).0;
    OneByteReply(s', code, value);
    SameAnswer(s, s', code, value);
  }

  // ---------- Flow control, break, DTR and RTS ----------

  /** What SET-CONTROL is answered with: what the port says now, in or out, or the line or the break asked for. */
  function ControlValue(s: Server, now: Port, value: byte): byte {
    var t, l := now.termios, now.lines;
    if value == 5 || value == 6 then value
    else if value == 4 then if s.breakSignaled then 5 else 6
    else if value == 7 then if l.dsr then 8 else 9
    else if value == 10 then if l.cts then 11 else 12
    else if value == 13 then if t.ixoff then 15 else if t.crtscts then 16 else 14
    else if t.ixon then 2 else if t.crtscts then 3 else 1
  }

  lemma ControlDoes(s: Server, value: byte)
    ensures var (q, reply) := Perform(s, [255, 250, 44, 5, value, 255, 240]);
            var t, l := s.port.termios, s.port.lines;
            && q == s.(breakSignaled := q.breakSignaled, port := q.port)
            && q.breakSignaled == (if value == 5 then true else if value == 6 then false else s.breakSignaled)
            && q.port.lines == l.(dtr := if value == 8 then true else if value == 9 then false else l.dtr,
                                  rts := if value == 11 then true else if value == 12 then false else l.rts)
            && q.port.termios == (if 1 <= value <= 3 then
                                    t.(ixon := value == 2, ixoff := value == 2, crtscts := value == 3)
                                  else t)
            && reply == ByteReply(105, ControlValue(s, q.port, value))
  {}

  /** SET-CONTROL with any value: what it changes, and that it changes nothing else. */
  lemma ControlChanges(s: Server, r: Receiver, value: byte)
    requires Sound(s, r) && r.esc == Normal && PortOptionOn(s)
    ensures var q := RedirectAll(s, r, [255, 250, 44, 5, value, 255, 240]).server;
            var t, l := s.port.termios, s.port.lines;
            && q == s.(last := q.last, breakSignaled := q.breakSignaled, port := q.port)
            && q.breakSignaled == (if value == 5 then true else if value == 6 then false else s.breakSignaled)
            && q.port.lines == l.(dtr := if value == 8 then true else if value == 9 then false else l.dtr,
                                  rts := if value == 11 then true else if value == 12 then false else l.rts)
            && q.port.termios == (if 1 <= value <= 3 then
                                    t.(ixon := value == 2, ixoff := value == 2, crtscts := value == 3)
                                  else t)
  {
    ControlDoes(s, value);
    hide RedirectAll, HandleIACCommand, Perform, ControlValue, OneByteAnswer, ValidReceiver;
    SevenBytes(s, r, 44, 5, value);
    var (q, reply) := Perform(s, [255, 250, 44, 5, value, 255, 240]);
    ServedWithValue(s, [255, 250, 44, 5, value, 255, 240], 105, reply.value);
  }

  lemma ControlAnswers(s: Server, r: Receiver, value: byte)
    requires Sound(s, r) && r.esc == Normal && PortOptionOn(s)
    ensures var out := RedirectAll(s, r, [255, 250, 44, 5, value, 255, 240]);
            out.net == OneByteAnswer(s, 105, ControlValue(s, out.server.port, value))
  {
    ControlDoes(s, value);
    hide RedirectAll, HandleIACCommand, Perform, ControlValue, OneByteAnswer, ValidReceiver;
    SevenBytes(s, r, 44, 5, value);
    var (q, reply) := Perform(s, [255, 250, 44, 5, value, 255, 240]);
    ServedWithValue(s, [255, 250, 44, 5, value, 255, 240], 105, reply.value);
  }

  lemma ControlLeavesReady(s: Server, r: Receiver, value: byte)
    requires Sound(s, r) && r.esc == Normal && PortOptionOn(s)
    ensures var out := RedirectAll(s, r, [255, 250, 44, 5, value, 255, 240]);
            Sound(out.server, out.receiver) && out.receiver.esc == Normal && PortOptionOn(out.server)
  {
    SevenBytes(s, r, 44, 5, value);
    ControlChanges(s, r, value);
    hide RedirectAll, HandleIACCommand, Sound;
  }

  /** After one of the three settings was asked for, asking for either direction finds it. */
  lemma FlowSettingsReadBack(s: Server, r: Receiver, value: byte)
    requires Sound(s, r) && r.esc == Normal && PortOptionOn(s) && 1 <= value <= 3
    ensures var out := RedirectAll(s, r, [255, 250, 44, 5, value, 255, 240]);
            && Sound(out.server, out.receiver)
            && RedirectAll(out.server, out.receiver, [255, 250, 44, 5, 0, 255, 240]).net
               == OneByteAnswer(out.server, 105, value)
            && RedirectAll(out.server, out.receiver, [255, 250, 44, 5, 13, 255, 240]).net
               == OneByteAnswer(out.server, 105, 13 + value)
  {
    hide RedirectAll, Sound, OneByteAnswer;
    ControlLeavesReady(s, r, value);
    ControlChanges(s, r, value);
    var out := RedirectAll(s, r, [255, 250, 44, 5, value, 255, 240]);
    ControlChanges(out.server, out.receiver, 0);
    ControlAnswers(out.server, out.receiver, 0);
    ControlChanges(out.server, out.receiver, 13);
    ControlAnswers(out.server, out.receiver, 13);
  }

  /** After a break was set or taken back, asking for it finds it so. */
  lemma BreakReadsBack(s: Server, r: Receiver, value: byte)
    requires Sound(s, r) && r.esc == Normal && PortOptionOn(s) && 5 <= value <= 6
    ensures var out := RedirectAll(s, r, [255, 250, 44, 5, value, 255, 240]);
            && Sound(out.server, out.receiver)
            && RedirectAll(out.server, out.receiver, [255, 250, 44, 5, 4, 255, 240]).net
               == OneByteAnswer(out.server, 105, value)
  {
    hide RedirectAll, Sound, OneByteAnswer;
    ControlLeavesReady(s, r, value);
    ControlChanges(s, r, value);
    var out := RedirectAll(s, r, [255, 250, 44, 5, value, 255, 240]);
    ControlAnswers(out.server, out.receiver, 4);
  }

  // ---------- Speed, data size, parity, stop size ----------

  /** The data size, parity or stop size as a value. */
  function SizeValue(t: Termios, kind: byte): byte {
    if kind == 2 then match t.csize case CS5 => 5 case CS6 => 6 case CS7 => 7 case CS8 => 8
    else if kind == 3 then if !t.parenb then 1 else if t.parodd then 2 else 3
    else if t.cstopb then 2 else 1
  }

  lemma SizeCommandDoes(s: Server, kind: byte, value: byte)
    requires 2 <= kind <= 4
    ensures var (q, reply) := Perform(s, [255, 250, 44, kind, value, 255, 240]);
            var t, t' := s.port.termios, q.port.termios;
            && q == s.(port := s.port.(termios := t'))
            && t' == (if value == 0 then t
                      else if kind == 2 then
                        t.(csize := if value == 5 then CS5 else if value == 6 then CS6 else if value == 7 then CS7
                                    else CS8)
                      else if kind == 3 then
                        if value == 2 then t.(parenb := true, parodd := true)
                        else if value == 3 then t.(parenb := true, parodd := false)
                        else t.(parenb := false)
                      else t.(cstopb := value == 2))
            && reply == ByteReply(100 + kind, SizeValue(t', kind))
  {}

  /** SET-DATASIZE, SET-PARITY and SET-STOPSIZE with any value: the nearest there is; 0 only asks. */
  lemma SizeCommandsChange(s: Server, r: Receiver, kind: byte, value: byte)
    requires Sound(s, r) && r.esc == Normal && PortOptionOn(s) && 2 <= kind <= 4
    ensures var q := RedirectAll(s, r, [255, 250, 44, kind, value, 255, 240]).server;
            var t, t' := s.port.termios, q.port.termios;
            && q == s.(last := q.last, port := s.port.(termios := t'))
            && t' == (if value == 0 then t
                      else if kind == 2 then
                        t.(csize := if value == 5 then CS5 else if value == 6 then CS6 else if value == 7 then CS7
                                    else CS8)
                      else if kind == 3 then
                        if value == 2 then t.(parenb := true, parodd := true)
                        else if value == 3 then t.(parenb := true, parodd := false)
                        else t.(parenb := false)
                      else t.(cstopb := value == 2))
  {
    SizeCommandDoes(s, kind, value);
    hide RedirectAll, HandleIACCommand, Perform, SizeValue, OneByteAnswer, ValidReceiver;
    SevenBytes(s, r, 44, kind, value);
    var (q, reply) := Perform(s, [255, 250, 44, kind, value, 255, 240]);
    ServedWithValue(s, [255, 250, 44, kind, value, 255, 240], 100 + kind, reply.value);
  }

  lemma SizeCommandsAnswer(s: Server, r: Receiver, kind: byte, value: byte)
    requires Sound(s, r) && r.esc == Normal && PortOptionOn(s) && 2 <= kind <= 4
    ensures var out := RedirectAll(s, r, [255, 250, 44, kind, value, 255, 240]);
            out.net == OneByteAnswer(s, 100 + kind, SizeValue(out.server.port.termios, kind))
  {
    SizeCommandDoes(s, kind, value);
    hide RedirectAll, HandleIACCommand, Perform, SizeValue, OneByteAnswer, ValidReceiver;
    SevenBytes(s, r, 44, kind, value);
    var (q, reply) := Perform(s, [255, 250, 44, kind, value, 255, 240]);
    ServedWithValue(s, [255, 250, 44, kind, value, 255, 240], 100 + kind, reply.value);
  }

  predicate Known(rate: nat) {
    rate in [50, 75, 110, 134, 150, 200, 300, 600, 1200, 1800, 2400, 4800, 9600, 19200, 38400, 57600, 115200,
             230400, 460800]
  }

  lemma KnownRates(rate: nat)
    ensures rate in KNOWN_RATES <==> Known(rate)
  {}

  function Quad(a: byte, b: byte, c: byte, d: byte): nat {
    ((a as nat * 256 + b as nat) * 256 + c as nat) * 256 + d as nat
  }

  function SpeedCommand(a: byte, b: byte, c: byte, d: byte): seq<byte> { [255, 250, 44, 1, a, b, c, d, 255, 240] }

  /** The port once a speed is set; 0 sets none. */
  function AtSpeed(port: Port, rate: nat): Port {
    var speed := B(if Known(rate) then rate else 9600);
    if rate == 0 then port else port.(termios := port.termios.(ospeed := speed, ispeed := speed))
  }

  lemma SpeedCommandDoes(s: Server, a: byte, b: byte, c: byte, d: byte)
    ensures var (s', reply) := Perform(s, SpeedCommand(a, b, c, d));
            var rate := s'.port.termios.ospeed.rate;
            && s' == s.(port := AtSpeed(s.port, Quad(a, b, c, d)))
            && reply == SpeedReply(if Known(rate) then rate else 0)
  {
    var command := SpeedCommand(a, b, c, d);
    assert command[4..8] == [a, b, c, d] && RateOf(command[4..8]) == Quad(a, b, c, d);
    KnownRates(Quad(a, b, c, d));
    KnownRates(Perform(s, command).0.port.termios.ospeed.rate);
    hide KNOWN_RATES, Known, RateOf, Quad;
  }

  lemma SpeedCommandIsServed(s: Server, r: Receiver, a: byte, b: byte, c: byte, d: byte)
    requires Sound(s, r) && r.esc == Normal && PortOptionOn(s)
    ensures var out := RedirectAll(s, r, SpeedCommand(a, b, c, d));
            var s' := s.(port := AtSpeed(s.port, Quad(a, b, c, d)));
            var rate := s'.port.termios.ospeed.rate;
            && (Known(rate) ==> rate < 0x100_0000)
            && Did(out.server, out.net) == Say(s', SpeedReply(if Known(rate) then rate else 0))
  {
    hide RedirectAll, HandleIACCommand, ValidReceiver, Perform, AtSpeed, Quad, Say;
    TenBytes(s, r, 44, a, b, c, d);
    Served(s, SpeedCommand(a, b, c, d));
    SpeedCommandDoes(s, a, b, c, d);
  }

  /** SET-BAUDRATE with any four bytes: both speeds follow, an unknown one is 9600, and 0 only asks. */
  lemma SpeedCommandChanges(s: Server, r: Receiver, a: byte, b: byte, c: byte, d: byte)
    requires Sound(s, r) && r.esc == Normal && PortOptionOn(s)
    ensures var q := RedirectAll(s, r, [255, 250, 44, 1, a, b, c, d, 255, 240]).server;
            var rate := ((a as nat * 256 + b as nat) * 256 + c as nat) * 256 + d as nat;
            var speed := B(if Known(rate) then rate else 9600);
            var t := s.port.termios;
            && q == s.(last := q.last, port := q.port)
            && q.port == s.port.(termios := if rate == 0 then t else t.(ospeed := speed, ispeed := speed))
  {
    hide RedirectAll, ValidReceiver, EscWriteAll, SpeedBytes, Known, LastOf;
    SpeedCommandIsServed(s, r, a, b, c, d);
  }

  /** The answer is the speed the port reports now, in the width of long; a speed it does not know is 0. */
  lemma SpeedCommandAnswers(s: Server, r: Receiver, a: byte, b: byte, c: byte, d: byte)
    requires Sound(s, r) && r.esc == Normal && PortOptionOn(s)
    ensures var out := RedirectAll(s, r, [255, 250, 44, 1, a, b, c, d, 255, 240]);
            var rate := out.server.port.termios.ospeed.rate;
            var now := if Known(rate) then rate else 0;
            var quad := [0 as byte, (now / 65536 % 256) as byte, (now / 256 % 256) as byte, (now % 256) as byte];
            out.net == [255, 250, 44, 101]
              + EscWriteAll(s.SendsBinary(), s.last, quad + seq(s.platform.longSize - 4, _ => 0 as byte))
              + [255, 240]
  {
    hide RedirectAll, ValidReceiver, EscWriteAll, Known, Quad, AtSpeed, LastOf;
    SpeedCommandIsServed(s, r, a, b, c, d);
  }

  // ---------- Masks, flow of the other direction, purge and what is not known ----------

  lemma {:induction false} AndNothing(a: nat)
    ensures And(a, 0) == 0
  {
    if a != 0 {
      AndNothing(a / 2);
    }
  }

  lemma AndSixteen(v: byte)
    ensures AndBytes(v, 16) == if v / 16 % 2 == 1 then 16 else 0
  {
    var a := v as nat;
    AndNothing(a / 2 / 2 / 2 / 2 / 2);
    assert And(a / 2 / 2 / 2 / 2, 1) == a / 16 % 2;
    assert And(a / 2 / 2, 4) == 4 * (a / 16 % 2);
    assert And(a, 16) == 16 * (a / 16 % 2);
  }

  lemma MaskCommandDoes(s: Server, kind: byte, value: byte)
    requires 10 <= kind <= 12
    ensures var kept := if kind == 10 then if value / 16 % 2 == 1 then 16 else 0 else value;
            Perform(s, [255, 250, 44, kind, value, 255, 240])
            == (s.(lineStateMask := if kind == 10 then kept else s.lineStateMask,
                   modemStateMask := if kind == 11 then kept else s.modemStateMask),
                ByteReply(100 + kind, kept))
  {
    hide AndBytes;
    AndSixteen(value);
  }

  /** The masks are kept, of the line-state mask only bit 16; masks and a purge are answered with the value kept. */
  lemma MaskCommandsDo(s: Server, r: Receiver, kind: byte, value: byte)
    requires Sound(s, r) && r.esc == Normal && PortOptionOn(s) && 10 <= kind <= 12
    ensures var out := RedirectAll(s, r, [255, 250, 44, kind, value, 255, 240]);
            var kept := if kind == 10 then if value / 16 % 2 == 1 then 16 else 0 else value;
            && out.server == s.(last := kept, lineStateMask := if kind == 10 then kept else s.lineStateMask,
                                modemStateMask := if kind == 11 then kept else s.modemStateMask)
            && out.net == OneByteAnswer(s, 100 + kind, kept)
  {
    hide RedirectAll, HandleIACCommand, Perform, OneByteAnswer, ValidReceiver;
    var command := [255, 250, 44, kind, value, 255, 240];
    MaskCommandDoes(s, kind, value);
    SevenBytes(s, r, 44, kind, value);
    ServedWithValue(s, command, 100 + kind, if kind == 10 then if value / 16 % 2 == 1 then 16 else 0 else value);
  }

  /** FLOWCONTROL-SUSPEND and -RESUME: whether the device is read for the client, and nothing said of it. */
  lemma FlowCommandsDo(s: Server, r: Receiver, kind: byte)
    requires Sound(s, r) && r.esc == Normal && PortOptionOn(s) && (kind == 8 || kind == 9)
    ensures var out := RedirectAll(s, r, [255, 250, 44, kind, 255, 240]);
            out.server == s.(inputFlow := kind == 9) && out.net == []
  {
    hide RedirectAll, Sound;
    SixBytes(s, r, 44, kind);
  }

  /** Any other kind of seven bytes does nothing. */
  lemma UnknownCommandsDoNothing(s: Server, r: Receiver, kind: byte, value: byte)
    requires Sound(s, r) && r.esc == Normal && (6 <= kind <= 7 || kind >= 13)
    ensures var out := RedirectAll(s, r, [255, 250, 44, kind, value, 255, 240]);
            out.server == s && out.net == []
  {
    hide RedirectAll, Sound;
    SevenBytes(s, r, 44, kind, value);
  }

  /** Nor does a sub-negotiation of another option, or of this one while it is off in both directions. */
  lemma OtherSubnegotiationsDoNothing(s: Server, r: Receiver, option: byte, kind: byte, value: byte)
    requires Sound(s, r) && r.esc == Normal && kind != 0 && kind != 1 && kind != 8 && kind != 9
    requires option != 44 || !PortOptionOn(s)
    ensures var out := RedirectAll(s, r, [255, 250, option, kind, value, 255, 240]);
            out.server == s && out.net == []
  {
    hide RedirectAll, Sound, HandleCPCCommand;
    SevenBytes(s, r, option, kind, value);
  }

  // ---------- Signatures ----------

  lemma SignatureEnds(s: Server, held: Receiver, command: seq<byte>)
    requires Sound(s, held) && held.esc == Receiving && IsSignature(held.command) && held.sig == Normal
    requires held.command == command && |command| <= 253
    ensures var out := RedirectAll(s, held, [IAC, SE]);
            && Dispatchable(command + [IAC, SE]) && out.dev == []
            && Did(out.server, out.net) == HandleIACCommand(s, command + [IAC, SE])
  {
    hide RedirectAll, Sound, HandleIACCommand;
    QuietStep(s, held, IAC);
    assert [IAC, SE] == [IAC] + [SE];
    RedirectAppend(s, held, [IAC], [SE]);
    HandledStep(s, held.(sig := Received, last := IAC), SE);
    assert command + [IAC] + [SE] == command + [IAC, SE];
  }

  lemma SignatureIsTaken(s: Server, r: Receiver, text: seq<byte>)
    requires Sound(s, r) && r.esc == Normal && |text| <= 249
    ensures var out := RedirectAll(s, r, SIGNATURE_HEAD + Doubled(text) + [IAC, SE]);
            var command := SIGNATURE_HEAD + text + [IAC, SE];
            && Dispatchable(command) && out.dev == []
            && Did(out.server, out.net) == HandleIACCommand(s, command)
  {
    SignatureIsHeld(s, r, text);
    assert SIGNATURE_HEAD[1] == SB && SIGNATURE_HEAD[3] == SIGNATURE;
    hide RedirectAll, Doubled, Sound, HandleIACCommand, LastOf, SIGNATURE_HEAD, Dispatchable;
    var held := Mid(s, SIGNATURE_HEAD + text, LastOf(SIGNATURE, text)).receiver;
    RedirectAppend(s, r, SIGNATURE_HEAD + Doubled(text), [IAC, SE]);
    SignatureEnds(s, held, SIGNATURE_HEAD + text);
  }

  /** An empty signature asks for ours; any other is taken and not answered. */
  lemma SignatureCommandsDo(s: Server, r: Receiver, text: seq<byte>)
    requires Sound(s, r) && r.esc == Normal && |text| <= 249 && PortOptionOn(s)
    ensures var out := RedirectAll(s, r, [255, 250, 44, 0] + Doubled(text) + [255, 240]);
            if text == [] then
              && out.server == s.(last := out.server.last)
              && out.net == [255, 250, 44, 100] + EscWriteAll(s.SendsBinary(), s.last, s.platform.signature)
                            + [255, 240]
            else out.server == s && out.net == []
  {
    SignatureIsTaken(s, r, text);
    hide RedirectAll, Sound, EscWriteAll, Doubled, LastOf;
    var command := SIGNATURE_HEAD + text + [IAC, SE];
    assert command[1] == SB && command[2] == COM_PORT && command[3] == SIGNATURE;
    assert text == [] ==> |command| == 6;
  }

  // ---------- Options ----------

  /** Three bytes with any verb and any option: what they make of the table and are answered with. */
  lemma OptionCommandsDo(s: Server, r: Receiver, verb: byte, option: byte)
    requires Sound(s, r) && r.esc == Normal && verb != 250 && verb != 255
    ensures var out := RedirectAll(s, r, [255, verb, option]);
            var known := option == 0 || option == 1 || option == 3 || option == 44;
            var was, now := s.options[option as int], out.server.options[option as int];
            && out.server == s.(options := s.options[option as int := now]) && out.dev == []
            && now == (if verb == 251 then was.(theirs := Half(false, known))
                       else if verb == 252 then was.(theirs := Half(false, false))
                       else if verb == 253 then was.(ours := Half(false, known))
                       else if verb == 254 then was.(ours := Half(false, false))
                       else was)
            && out.net == (if verb == 251 then
                             if !known then [255, 254, option] else if was.theirs.sent then [] else [255, 253, option]
                           else if verb == 253 then
                             if !known then [255, 252, option] else if was.ours.sent then [] else [255, 251, option]
                           else if verb == 252 && was.theirs.on then [255, 254, option]
                           else if verb == 254 && was.ours.on then [255, 252, option]
                           else [])
  {
    hide RedirectAll, Sound, HandleCPCCommand;
    FixedCommandIsHandled(s, r, [255, verb, option]);
    assert s.options[option as int := s.options[option as int]] == s.options;
  }
}
