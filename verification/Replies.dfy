/**
 * What the redirector says back: how many bytes at most, in what form, and what a client that only listens to
 * the confirmations knows about the port.
 */
module Replies {
  import opened Wrappers
  import opened Bitwise
  import opened Ports
  import opened Telnet
  import opened TelnetStreams

  // ---------- Byte budgets ----------

  /** The budgets the source declares beside each sender. */
  const ESC_WRITE_BYTES: nat := 2
  const BYTE_COMMAND_BYTES: nat := 8
  const OPTION_BYTES: nat := 3
  const SIGNATURE_BYTES: nat := 6 + 2 * 255
  const INITIAL_OPTIONS_BYTES: nat := OPTION_BYTES * 3
  const HANDLE_BYTES: nat := SIGNATURE_BYTES

  function BaudRateBytes(longSize: nat): nat { 6 + 2 * longSize }

  lemma RepliesFitBudgets(s: Server, reply: Reply)
    requires ValidPlatform(s.platform) && (reply.SpeedReply? ==> reply.rate < 0x1_0000_0000)
    ensures var wire := Say(s, reply).wire;
            && |wire| <= (match reply
                          case NoReply => 0
                          case ByteReply(_, _) => BYTE_COMMAND_BYTES
                          case SpeedReply(_) => BaudRateBytes(s.platform.longSize)
                          case SignatureReply => SIGNATURE_BYTES)
            && |wire| <= HANDLE_BYTES
  {}

  /** Whatever is handled, and whatever state it is handled in, at most 516 bytes go to the network. */
  lemma HandlingFitsBudget(s: Server, command: seq<byte>)
    requires ValidPlatform(s.platform) && Dispatchable(command)
    ensures |HandleIACCommand(s, command).wire| <= HANDLE_BYTES
  {
    hide Say, Perform, Negotiate;
    if command[1] == SB {
      PerformLeaves(s, command);
      var (s', reply) := Perform(s, command);
      RepliesFitBudgets(s', reply);
    }
  }

  lemma RedirectingFitsBudget(s: Server, r: Receiver, c: byte)
    requires Sound(s, r)
    ensures var out := EscRedirectChar(s, r, c); |out.dev| <= 1 && |out.net| <= HANDLE_BYTES
  {
    ReceiveKeepsValid(r, s.ReceivesBinary(), c);
    var step := Receive(r, s.ReceivesBinary(), c);
    hide HandleIACCommand, Dispatchable, Receive, ValidReceiver;
    if step.command.Some? {
      HandlingFitsBudget(s, step.command.value);
    }
  }

  /** Each byte received costs at most one byte towards the device and 516 towards the network. */
  lemma {:induction false} RedirectingFitsBudgets(s: Server, r: Receiver, bytes: seq<byte>)
    requires Sound(s, r)
    ensures var out := RedirectAll(s, r, bytes);
            |out.dev| <= |bytes| && |out.net| <= HANDLE_BYTES * |bytes|
    decreases |bytes|
  {
    hide Sound, EscRedirectChar;
    if bytes != [] {
      RedirectingFitsBudget(s, r, bytes[0]);
      var one := EscRedirectChar(s, r, bytes[0]);
      RedirectingFitsBudgets(one.server, one.receiver, bytes[1..]);
    }
  }

  /** The budget declared for the initial offers is too small: six offers of three bytes each are made. */
  lemma InitialOffersExceedBudget()
    ensures |INITIAL_OFFERS| == 6 * OPTION_BYTES > INITIAL_OPTIONS_BYTES
  {}

  // ---------- The form of a reply ----------

  /**
   * A one-byte reply has the form RFC 2217 gives it exactly when the value needs no doubling and no NUL is put
   * before it; outside binary mode a reply that follows a CR carries a NUL its reader does not expect.
   */
  lemma ReplyIsCanonicalExactlyWhen(s: Server, code: byte, value: byte)
    ensures SendReply(s, code, [value]).wire == [IAC, SB, COM_PORT, code, value, IAC, SE]
            <==> value != IAC && (s.SendsBinary() || s.last != CR || value == LF)
  {
    assert EscWriteAll(s.SendsBinary(), s.last, [value]) == EscWrite(s.SendsBinary(), s.last, value) by {
      assert [value][1..] == [];
    }
    hide EscWriteAll;
  }

  /** Undoes the doubling up to the first single IAC. */
  function Undouble(bytes: seq<byte>): seq<byte> {
    if |bytes| < 2 || (bytes[0] == IAC && bytes[1] != IAC) then []
    else if bytes[0] == IAC then [IAC] + Undouble(bytes[2..])
    else [bytes[0]] + Undouble(bytes[1..])
  }

  lemma {:induction false} UndoublingDoubled(bytes: seq<byte>)
    ensures Undouble(Doubled(bytes) + [IAC, SE]) == bytes
  {
    hide Doubled, EscWriteAll;
    if bytes == [] {
      NothingToDouble(bytes);
    } else {
      DoubledStep(bytes);
      UndoublingDoubled(bytes[1..]);
      var wire := Doubled(bytes) + [IAC, SE];
      assert wire[(if bytes[0] == IAC then 2 else 1)..] == Doubled(bytes[1..]) + [IAC, SE];
    }
  }

  /** The first four bytes sent for a speed are the speed; a wider long adds zeros. */
  lemma SpeedReadsBack(rate: nat, longSize: nat)
    requires rate < 0x1_0000_0000 && longSize >= 4
    ensures RateOf(SpeedBytes(rate, longSize)[..4]) == rate
    ensures SpeedBytes(rate, longSize)[4..] == seq(longSize - 4, _ => 0 as byte)
  {
    var b := SpeedBytes(rate, longSize)[..4];
    var high := rate / 0x1_0000;
    assert rate / 0x100_0000 == high / 256;
    assert rate / 256 / 256 == high;
    assert b[0] as nat == rate / 0x100_0000 && b[1] as nat == rate / 0x1_0000 % 256;
    assert b[2] as nat == rate / 256 % 256 && b[3] as nat == rate % 256;
  }

  // ---------- The settings ----------

  datatype Setting = SpeedSetting | DataSizeSetting | ParitySetting | StopSizeSetting

  function CodeOf(setting: Setting): byte {
    match setting
    case SpeedSetting => SET_BAUDRATE
    case DataSizeSetting => SET_DATASIZE
    case ParitySetting => SET_PARITY
    case StopSizeSetting => SET_STOPSIZE
  }

  /** What the port reports now. */
  function Reported(port: Port, setting: Setting): (value: nat)
    ensures value < if setting == SpeedSetting then 0x1_0000_0000 else 256
  {
    Shown(port.termios, setting)
  }

  function Shown(t: Termios, setting: Setting): (value: nat)
    ensures value < if setting == SpeedSetting then 0x1_0000_0000 else 256
  {
    match setting
    case SpeedSetting => SpeedOf(t)
    case DataSizeSetting => DataSizeOf(t) as nat
    case ParitySetting => ParityOf(t) as nat
    case StopSizeSetting => StopSizeOf(t) as nat
  }

  /** The value of a setting that a reply carries. */
  function Confirmed(reply: Reply, setting: Setting): Option<nat> {
    if setting == SpeedSetting then if reply.SpeedReply? then Some(reply.rate) else None
    else if reply.ByteReply? && reply.code == 100 + CodeOf(setting) then Some(reply.value as nat)
    else None
  }

  lemma SettersKeepRest(t: Termios, value: byte, other: Setting)
    ensures other != DataSizeSetting ==> Shown(WithDataSize(t, value), other) == Shown(t, other)
    ensures other != ParitySetting ==> Shown(WithParity(t, value), other) == Shown(t, other)
    ensures other != StopSizeSetting ==> Shown(WithStopSize(t, value), other) == Shown(t, other)
  {
    hide KNOWN_RATES;
  }

  lemma FlowControlKeepsRest(port: Port, how: byte, setting: Setting)
    ensures Reported(WithFlowControl(port, how), setting) == Reported(port, setting)
  {
    hide KNOWN_RATES;
  }

  /** A command changes no setting but its own, and confirms its own setting's new value and no other. */
  lemma CommandsTouchOneSetting(s: Server, command: seq<byte>, setting: Setting)
    requires Dispatchable(command) && command[1] == SB
    ensures var (s', reply) := Perform(s, command);
            var now := Reported(s'.port, setting);
            && (command[3] != CodeOf(setting) ==> now == Reported(s.port, setting))
            && Confirmed(reply, setting) == if command[3] == CodeOf(setting) then Some(now) else None
  {
    hide RateOf, AndBytes, SpeedOf, DataSizeOf, ParityOf, StopSizeOf, FlowControlOf;
    hide WithSpeed, WithDataSize, WithParity, WithStopSize, WithFlowControl;
    if command[3] == SET_BAUDRATE {
      WithSpeedKeepsRest(s.port.termios, RateOf(command[4..8]), setting);
    } else if |command| == 7 {
      SettersKeepRest(s.port.termios, command[4], setting);
      FlowControlKeepsRest(s.port, command[4], setting);
    }
  }

  lemma WithSpeedKeepsRest(t: Termios, rate: nat, other: Setting)
    ensures other != SpeedSetting ==> Shown(WithSpeed(t, rate), other) == Shown(t, other)
  {}

  // ---------- What a client knows of the port ----------

  /** How many octets RFC 2217 gives the value of a setting. */
  function Width(setting: Setting): nat { if setting == SpeedSetting then 4 else 1 }

  /** The value of a setting that a message confirms, read as RFC 2217 lays it out. */
  function Confirmation(wire: seq<byte>, setting: Setting): Option<nat> {
    if |wire| < 4 || wire[..4] != [IAC, SB, COM_PORT, 100 + CodeOf(setting)] then None
    else
      var parameters := Undouble(wire[4..]);
      if |parameters| != Width(setting) then None
      else if setting == SpeedSetting then Some(RateOf(parameters))
      else Some(parameters[0] as nat)
  }

  ghost predicate IsPortCommand(command: seq<byte>) {
    Dispatchable(command) && command[1] == SB && command[2] == COM_PORT
  }

  predicate IsFor(command: seq<byte>, setting: Setting) { |command| > 3 && command[3] == CodeOf(setting) }

  /**
   * What happens to the server: it answers a command, passes on a byte from the device, sends a modem-state
   * notification, or finds other lines raised by the peer.
   */
  datatype Act = Obey(command: seq<byte>) | PassOn(data: byte) | Announce(modemState: byte) | See(lines: Lines)

  ghost predicate CanDo(act: Act) { act.Obey? ==> Dispatchable(act.command) }

  function Do(s: Server, act: Act): Did
    requires ValidPlatform(s.platform) && CanDo(act)
  {
    match act
    case Obey(command) => HandleIACCommand(s, command)
    case PassOn(data) => Did(s.(last := data), EscWrite(s.SendsBinary(), s.last, data))
    case Announce(state) =>
      SendReply(s.(modemState := state), NOTIFY_MODEMSTATE, [AndBytes(state, s.modemStateMask)])
    case See(lines) => Did(s.(port := s.port.(lines := WithInputs(s.port.lines, lines))), [])
  }

  /** A COM-port command for this setting, while the option is on. */
  ghost predicate Asks(s: Server, act: Act, setting: Setting) {
    && act.Obey? && IsPortCommand(act.command) && IsFor(act.command, setting)
    && var opt := s.options[COM_PORT as int]; opt.ours.on || opt.theirs.on
  }

  datatype Done = Done(before: Server, act: Act, wire: seq<byte>)

  datatype Served = Served(server: Server, done: seq<Done>)

  /** Acts one after the other, with what each of them sends. */
  ghost function Serve(s: Server, acts: seq<Act>): (out: Served)
    requires ValidPlatform(s.platform) && forall act <- acts :: CanDo(act)
    ensures out.server.platform == s.platform && |out.done| == |acts|
    decreases |acts|
  {
    if acts == [] then Served(s, [])
    else
      var n := |acts| - 1;
      var before := Serve(s, acts[..n]);
      var did := Do(before.server, acts[n]);
      DoingLeaves(before.server, acts[n]);
      Served(did.server, before.done + [Done(before.server, acts[n], did.wire)])
  }

  lemma DoingLeaves(s: Server, act: Act)
    requires ValidPlatform(s.platform) && CanDo(act)
    ensures Do(s, act).server.platform == s.platform
  {
    if act.Obey? {
      HandlingLeaves(s, act.command);
    }
    hide HandleIACCommand;
  }

  /** The last act that asks for the setting. */
  ghost function LastAsked(done: seq<Done>, setting: Setting): (last: Option<nat>)
    ensures last.Some? ==> last.value < |done|
  {
    if done == [] then None
    else
      var n := |done| - 1;
      if Asks(done[n].before, done[n].act, setting) then Some(n) else LastAsked(done[..n], setting)
  }

  /** The last value of the setting that can be read off the wire. */
  function LastConfirmed(done: seq<Done>, setting: Setting): Option<nat> {
    if done == [] then None
    else
      var last := Confirmation(done[|done| - 1].wire, setting);
      if last.Some? then last else LastConfirmed(done[..|done| - 1], setting)
  }

  /**
   * Outside binary mode a NUL is written after a CR and makes the value one octet longer; a speed is longer by
   * half of a long that is eight bytes wide.
   */
  predicate Heard(s: Server, setting: Setting) {
    (s.SendsBinary() || s.last != CR) && (setting == SpeedSetting ==> s.platform.longSize == 4)
  }

  // ---------- Reading a reply ----------

  /** Bytes with neither CR nor IAC in them are written as they are, unless a CR came before. */
  lemma {:induction false} PlainEscapes(binary: bool, last: byte, bytes: seq<byte>)
    requires CR !in bytes && IAC !in bytes && (binary || last != CR)
    ensures EscWriteAll(binary, last, bytes) == bytes
    decreases |bytes|
  {
    if bytes != [] {
      var c, rest := bytes[0], bytes[1..];
      assert c in bytes && forall b <- rest :: b in bytes;
      assert EscWrite(binary, last, c) == [c];
      PlainEscapes(binary, c, rest);
    }
  }

  lemma EscapesAfterCR(bytes: seq<byte>)
    requires CR !in bytes && IAC !in bytes && bytes != [] && bytes[0] != LF
    ensures EscWriteAll(false, CR, bytes) == [NUL] + bytes
  {
    var c, rest := bytes[0], bytes[1..];
    assert c in bytes && forall b <- rest :: b in bytes;
    PlainEscapes(false, c, rest);
    assert [NUL, c] + rest == [NUL] + bytes;
  }

  lemma PlainUndoubles(text: seq<byte>)
    requires IAC !in text
    ensures Undouble(text + [IAC, SE]) == text
  {
    NothingToDouble(text);
    UndoublingDoubled(text);
    hide Doubled, Undouble;
  }

  lemma AfterHead(head: seq<byte>, text: seq<byte>, tail: seq<byte>)
    ensures (head + text + tail)[..|head|] == head && (head + text + tail)[|head|..] == text + tail
  {}

  lemma ParametersEscape(s: Server, parameters: seq<byte>)
    requires CR !in parameters && IAC !in parameters
    requires parameters != [] && parameters[0] != LF
    ensures var text := EscWriteAll(s.SendsBinary(), s.last, parameters);
            IAC !in text && text == (if s.SendsBinary() || s.last != CR then [] else [NUL]) + parameters
  {
    hide EscWriteAll;
    if s.SendsBinary() || s.last != CR {
      PlainEscapes(s.SendsBinary(), s.last, parameters);
    } else {
      EscapesAfterCR(parameters);
    }
  }

  /** Parameters with neither CR nor IAC in them are read as they are, but for a NUL that may stand in front. */
  lemma PlainReplyReads(s: Server, code: byte, parameters: seq<byte>)
    requires CR !in parameters && IAC !in parameters
    requires parameters != [] && parameters[0] != LF
    ensures var wire := SendReply(s, code, parameters).wire;
            && wire[..4] == [IAC, SB, COM_PORT, code]
            && Undouble(wire[4..]) == (if s.SendsBinary() || s.last != CR then [] else [NUL]) + parameters
  {
    hide EscWriteAll, Undouble, LastOf;
    var text := EscWriteAll(s.SendsBinary(), s.last, parameters);
    ParametersEscape(s, parameters);
    PlainUndoubles(text);
    AfterHead([IAC, SB, COM_PORT, code], text, [IAC, SE]);
  }

  lemma SpeedIsPlain(t: Termios, longSize: nat)
    requires longSize >= 4
    ensures var bytes := SpeedBytes(SpeedOf(t), longSize);
            bytes[0] == 0 && CR !in bytes && IAC !in bytes
  {
    PlainRates(SpeedOf(t));
  }

  lemma PlainRates(rate: nat)
    requires rate == 0 || rate in KNOWN_RATES
    ensures rate / 0x100_0000 == 0 && rate / 0x1_0000 % 256 < 13
    ensures rate / 256 % 256 != 13 && rate / 256 % 256 != 255 && rate % 256 != 13 && rate % 256 != 255
  {}

  /** With a NUL in front, the first four bytes of a speed are a 256th of it. */
  lemma ShiftedSpeed(rate: nat, longSize: nat)
    requires rate < 0x1_0000_0000 && longSize >= 4
    ensures RateOf(([NUL] + SpeedBytes(rate, longSize))[..4]) == rate / 256
  {
    var b := ([NUL] + SpeedBytes(rate, longSize))[..4];
    var high := rate / 256;
    assert rate / 0x1_0000 == high / 256 && rate / 0x100_0000 == high / 256 / 256;
    assert b[1] as nat == high / 256 / 256 && b[2] as nat == high / 256 % 256 && b[3] as nat == high % 256;
  }

  /** The reply that carries what the port reports for the setting. */
  predicate Carries(s: Server, reply: Reply, setting: Setting) {
    reply == if setting == SpeedSetting then SpeedReply(Reported(s.port, setting))
             else ByteReply(100 + CodeOf(setting), Reported(s.port, setting) as byte)
  }

  /** What the parameters of a speed reply are read as, and as what a reader content with four of them takes them. */
  lemma SpeedReplyReads(s: Server)
    requires ValidPlatform(s.platform)
    ensures var rate := SpeedOf(s.port.termios);
            var wire := Say(s, SpeedReply(rate)).wire;
            var read := Undouble(wire[4..]);
            var clean := s.SendsBinary() || s.last != CR;
            && wire[..4] == [IAC, SB, COM_PORT, 100 + SET_BAUDRATE]
            && read == (if clean then [] else [NUL]) + SpeedBytes(rate, s.platform.longSize)
            && RateOf(read[..4]) == if clean then rate else rate / 256
  {
    var rate := SpeedOf(s.port.termios);
    var bytes := SpeedBytes(rate, s.platform.longSize);
    SpeedIsPlain(s.port.termios, s.platform.longSize);
    PlainReplyReads(s, 100 + SET_BAUDRATE, bytes);
    SpeedReadsBack(rate, s.platform.longSize);
    ShiftedSpeed(rate, s.platform.longSize);
    hide Undouble, SendReply, SpeedBytes, RateOf, SpeedOf;
    assert [] + bytes == bytes;
  }

  /** A speed reply has the form RFC 2217 gives it only where long is four bytes wide, and then as any other. */
  lemma SpeedReplyIsCanonicalExactlyWhen(s: Server)
    requires ValidPlatform(s.platform)
    ensures var rate := SpeedOf(s.port.termios);
            Say(s, SpeedReply(rate)).wire == [IAC, SB, COM_PORT, 100 + SET_BAUDRATE] + SpeedBytes(rate, 4) + [IAC, SE]
            <==> s.platform.longSize == 4 && (s.SendsBinary() || s.last != CR)
  {
    var bytes := SpeedBytes(SpeedOf(s.port.termios), s.platform.longSize);
    SpeedIsPlain(s.port.termios, s.platform.longSize);
    ParametersEscape(s, bytes);
    hide EscWriteAll, SpeedBytes, SpeedOf, LastOf;
    assert [] + bytes == bytes;
  }

  /**
   * In either mode the confirmation of a setting reads as the port's value exactly when we send binary or wrote
   * no CR before it, and a speed only where long is four bytes wide; otherwise it cannot be read.
   */
  lemma ConfirmationReadsExactlyWhen(s: Server, reply: Reply, setting: Setting)
    requires ValidPlatform(s.platform) && Carries(s, reply, setting)
    ensures Confirmation(Say(s, reply).wire, setting)
         == if Heard(s, setting) then Some(Reported(s.port, setting)) else None
  {
    if setting == SpeedSetting {
      SpeedReplyReads(s);
    } else {
      PlainReplyReads(s, 100 + CodeOf(setting), [Reported(s.port, setting) as byte]);
    }
    hide Undouble, SendReply, SpeedBytes, RateOf, SpeedOf;
  }

  /** Nothing but a reply that carries the setting reads as one. */
  lemma OtherRepliesConfirmNothing(s: Server, reply: Reply, setting: Setting)
    requires ValidPlatform(s.platform) && (reply.SpeedReply? ==> reply.rate < 0x1_0000_0000)
    requires Confirmed(reply, setting).None? && (reply.ByteReply? ==> reply.code != 100 + SET_BAUDRATE)
    ensures Confirmation(Say(s, reply).wire, setting) == None
  {
    match reply
    case NoReply =>
    case ByteReply(code, value) => ReplyNamesCode(s, code, [value], setting);
    case SpeedReply(rate) =>
      ReplyNamesCode(s, 100 + SET_BAUDRATE, SpeedBytes(rate, s.platform.longSize), setting);
    case SignatureReply => ReplyNamesCode(s, 100 + SIGNATURE, s.platform.signature, setting);
    hide Undouble, SendReply, SpeedBytes, RateOf;
  }

  lemma ReplyNamesCode(s: Server, code: byte, parameters: seq<byte>, setting: Setting)
    requires code != 100 + CodeOf(setting)
    ensures Confirmation(SendReply(s, code, parameters).wire, setting) == None
  {
    var wire := SendReply(s, code, parameters).wire;
    assert wire[..4][3] == code;
    hide Undouble, EscWriteAll, RateOf;
  }

  // ---------- What each act confirms ----------

  lemma ByteRepliesNameNoSpeed(s: Server, command: seq<byte>)
    requires Dispatchable(command) && command[1] == SB
    ensures var reply := Perform(s, command).1; reply.ByteReply? ==> reply.code != 100 + SET_BAUDRATE
  {
    hide RateOf, AndBytes, KNOWN_RATES, WithSpeed, FlowControlOf, SpeedOf;
  }

  lemma SayingLeaves(s: Server, reply: Reply)
    requires ValidPlatform(s.platform) && (reply.SpeedReply? ==> reply.rate < 0x1_0000_0000)
    ensures var s' := Say(s, reply).server; s' == s.(last := s'.last)
  {
    hide EscWriteAll, SpeedBytes, LastOf;
  }

  /** A command that asks for the setting confirms its present value; no other changes or confirms it. */
  lemma ObeyingConfirms(s: Server, command: seq<byte>, setting: Setting)
    requires ValidPlatform(s.platform) && IsPortCommand(command)
    ensures var did := HandleCPCCommand(s, command);
            var now, read := Reported(did.server.port, setting), Confirmation(did.wire, setting);
            && read == (if IsFor(command, setting) && Heard(s, setting) then Some(now) else None)
            && (!IsFor(command, setting) ==> now == Reported(s.port, setting))
  {
    PerformLeaves(s, command);
    CommandsTouchOneSetting(s, command, setting);
    ByteRepliesNameNoSpeed(s, command);
    var (s', reply) := Perform(s, command);
    SayingLeaves(s', reply);
    if IsFor(command, setting) {
      assert Carries(s', reply, setting);
      ConfirmationReadsExactlyWhen(s', reply, setting);
    } else {
      OtherRepliesConfirmNothing(s', reply, setting);
    }
    hide Perform, Confirmation, Confirmed, Say, Reported, Carries;
  }

  lemma ActConfirms(s: Server, act: Act, setting: Setting)
    requires ValidPlatform(s.platform) && CanDo(act)
    ensures var did := Do(s, act);
            var now, read := Reported(did.server.port, setting), Confirmation(did.wire, setting);
            && read == (if Asks(s, act, setting) && Heard(s, setting) then Some(now) else None)
            && (!Asks(s, act, setting) ==> now == Reported(s.port, setting))
  {
    match act
    case Obey(command) =>
      if IsPortCommand(command) {
        ObeyingConfirms(s, command, setting);
      }
      hide Confirmation, HandleCPCCommand, Reported, Heard;
    case PassOn(data) =>
    case Announce(state) =>
      ReplyNamesCode(s.(modemState := state), NOTIFY_MODEMSTATE, [AndBytes(state, s.modemStateMask)], setting);
      hide SendReply, AndBytes;
    case See(lines) =>
  }

  /**
   * After any run of commands, passed-on data and notifications, in and out of binary mode: the last command that
   * asked for a setting confirmed what the port reports now, and a client that reads the confirmations knows it,
   * if that one could be read; if none asked, the setting is as it was and nothing was confirmed.
   */
  lemma {:induction false} LastConfirmationIsCurrent(s: Server, acts: seq<Act>, setting: Setting)
    requires ValidPlatform(s.platform) && forall act <- acts :: CanDo(act)
    ensures var out := Serve(s, acts);
            var now, last := Reported(out.server.port, setting), LastAsked(out.done, setting);
            if last.None? then now == Reported(s.port, setting) && LastConfirmed(out.done, setting) == None
            else
              var it := out.done[last.value];
              && Confirmation(it.wire, setting) == (if Heard(it.before, setting) then Some(now) else None)
              && (Heard(it.before, setting) ==> LastConfirmed(out.done, setting) == Some(now))
    decreases |acts|
  {
    hide Confirmation, Reported, Do, Asks, Heard, CanDo;
    if acts != [] {
      var n := |acts| - 1;
      LastConfirmationIsCurrent(s, acts[..n], setting);
      var before := Serve(s, acts[..n]);
      ActConfirms(before.server, acts[n], setting);
      var out := Serve(s, acts);
      assert out.done[..n] == before.done;
    }
  }

  // ---------- Sending a confirmed value back ----------

  /** The command that asks for a setting to be given this value. */
  function SettingCommand(setting: Setting, value: nat): seq<byte>
    requires value < (if setting == SpeedSetting then 0x1_0000_0000 else 256)
  {
    PortHead(CodeOf(setting)) + (if setting == SpeedSetting then SpeedBytes(value, 4) else [value as byte]) + [IAC, SE]
  }

  /** Asking for what was confirmed leaves everything the port reports as it is. */
  lemma EchoedValueChangesNothing(s: Server, setting: Setting, other: Setting, which: byte)
    requires ValidPlatform(s.platform)
    ensures var command := SettingCommand(setting, Reported(s.port, setting));
            && IsPortCommand(command)
            && var port := Perform(s, command).0.port;
            && Reported(port, other) == Reported(s.port, other)
            && FlowControlOf(port, which) == FlowControlOf(s.port, which)
  {
    EchoedSetters(s.port.termios, other);
    SettingCommandIsOne(setting, Reported(s.port, setting));
    hide RateOf, AndBytes, SettingCommand, Shown, Alike, SpeedOf, DataSizeOf, ParityOf, StopSizeOf;
    hide WithSpeed, WithDataSize, WithParity, WithStopSize, WithFlowControl;
  }

  lemma SettingCommandIsOne(setting: Setting, value: nat)
    requires value < (if setting == SpeedSetting then 0x1_0000_0000 else 256)
    ensures var command := SettingCommand(setting, value);
            && IsPortCommand(command) && command[3] == CodeOf(setting)
            && (if setting == SpeedSetting then RateOf(command[4..8]) == value else command[4] as nat == value)
  {
    var command := SettingCommand(setting, value);
    if setting == SpeedSetting {
      assert command[4..8] == SpeedBytes(value, 4)[..4];
      SpeedReadsBack(value, 4);
    }
    hide RateOf, SpeedBytes;
  }

  ghost predicate Alike(t: Termios, t': Termios, other: Setting) {
    Shown(t', other) == Shown(t, other) && InFlowOf(t') == InFlowOf(t) && OutFlowOf(t') == OutFlowOf(t)
  }

  lemma EchoedSetters(t: Termios, other: Setting)
    ensures SpeedOf(t) != 0 ==> Alike(t, WithSpeed(t, SpeedOf(t)), other)
    ensures Alike(t, WithDataSize(t, DataSizeOf(t)), other)
    ensures Alike(t, WithParity(t, ParityOf(t)), other)
    ensures Alike(t, WithStopSize(t, StopSizeOf(t)), other)
  {}

  // ---------- Asking for a value ----------

  /** What the port can be set to. */
  predicate Supports(setting: Setting, value: nat) {
    match setting
    case SpeedSetting => value in KNOWN_RATES
    case DataSizeSetting => 5 <= value <= 8
    case ParitySetting => NO_PARITY as nat <= value <= EVEN_PARITY as nat
    case StopSizeSetting => ONE_STOP_BIT as nat <= value <= TWO_STOP_BITS as nat
  }

  /** A value asked for is what the port reports afterwards exactly when it is supported; asking for 0 only asks. */
  lemma RequestIsGrantedExactlyWhenSupported(s: Server, setting: Setting, value: nat)
    requires value < if setting == SpeedSetting then 0x1_0000_0000 else 256
    ensures var command := SettingCommand(setting, value);
            && IsPortCommand(command)
            && var port := Perform(s, command).0.port;
            && (value == 0 ==> port == s.port)
            && (value != 0 ==> (Reported(port, setting) == value <==> Supports(setting, value)))
  {
    SettingCommandIsOne(setting, value);
    if value != 0 {
      RequestedSetters(s.port.termios, setting, value);
    }
    hide RateOf, AndBytes, SettingCommand, SpeedOf, DataSizeOf, ParityOf, StopSizeOf, Supports;
    hide WithSpeed, WithDataSize, WithParity, WithStopSize, WithFlowControl;
  }

  lemma RequestedSetters(t: Termios, setting: Setting, value: nat)
    requires value != 0
    ensures match setting
            case SpeedSetting => SpeedOf(WithSpeed(t, value)) == value <==> Supports(setting, value)
            case DataSizeSetting =>
              value < 256 ==> (DataSizeOf(WithDataSize(t, value as byte)) as nat == value <==> Supports(setting, value))
            case ParitySetting =>
              value < 256 ==> (ParityOf(WithParity(t, value as byte)) as nat == value <==> Supports(setting, value))
            case StopSizeSetting =>
              value < 256 ==> (StopSizeOf(WithStopSize(t, value as byte)) as nat == value <==> Supports(setting, value))
  {}

  /** Flow control set for both directions reads back in both, and no other control request changes either. */
  lemma FlowControlReadsBack(port: Port, how: byte)
    ensures var now := WithFlowControl(port, how);
            if FLOW_NONE <= how <= FLOW_HARDWARE then
              FlowControlOf(now, FLOW_REQ) == how && FlowControlOf(now, INFLOW_REQ) == how + INFLOW_REQ
            else
              FlowControlOf(now, FLOW_REQ) == FlowControlOf(port, FLOW_REQ)
              && FlowControlOf(now, INFLOW_REQ) == FlowControlOf(port, INFLOW_REQ)
  {}
}
