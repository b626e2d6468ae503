/**
 * The Telnet and COM-port layer of the redirector as functions on values: what each byte, option command and
 * COM-port command does to the server's state and which bytes it produces.
 */
module Telnet {
  import opened Wrappers
  import opened Bitwise
  import opened Ports

  // RFC 854, "TELNET Command Structure"
  const SE: byte := 240
  const SB: byte := 250
  const WILL: byte := 251
  const WONT: byte := 252
  const DO: byte := 253
  const DONT: byte := 254
  const IAC: byte := 255

  const CR: byte := 13
  const LF: byte := 10
  const NUL: byte := 0

  const TRANSMIT_BINARY: byte := 0
  const ECHO: byte := 1
  const SUPPRESS_GO_AHEAD: byte := 3
  const COM_PORT: byte := 44

  // RFC 2217, client to access server; the server answers with the same code plus 100
  const SIGNATURE: byte := 0
  const SET_BAUDRATE: byte := 1
  const SET_DATASIZE: byte := 2
  const SET_PARITY: byte := 3
  const SET_STOPSIZE: byte := 4
  const SET_CONTROL: byte := 5
  const FLOWCONTROL_SUSPEND: byte := 8
  const FLOWCONTROL_RESUME: byte := 9
  const SET_LINESTATE_MASK: byte := 10
  const SET_MODEMSTATE_MASK: byte := 11
  const PURGE_DATA: byte := 12
  const NOTIFY_MODEMSTATE: byte := 107

  const COMMAND_SIZE: nat := 255

  // ---------- Options ----------

  /** One direction of one option: whether an offer of ours is still unanswered, and whether it is on. */
  datatype Half = Half(sent: bool, on: bool)

  /** ours: what we do (WILL/WONT from us, DO/DONT from the peer); theirs: what the peer does. */
  datatype Opt = Opt(ours: Half, theirs: Half)

  const OFF := Half(false, false)
  const ON := Half(false, true)

  type OptTable = t: seq<Opt> | |t| == 256 witness seq(256, _ => Opt(OFF, OFF))

  predicate Supported(option: byte) {
    option == COM_PORT || option == TRANSMIT_BINARY || option == ECHO || option == SUPPRESS_GO_AHEAD
  }

  datatype Negotiated = Negotiated(half: Half, reply: Option<byte>)

  /** A request to switch on: answered with `yes` unless it answers our own offer, or refused with `no`. */
  function Request(half: Half, supported: bool, yes: byte, no: byte): Negotiated {
    if supported then Negotiated(ON, if half.sent then None else Some(yes))
    else Negotiated(OFF, Some(no))
  }

  /** A refusal: confirmed with `no` if the option was on. */
  function Refusal(half: Half, no: byte): Negotiated {
    Negotiated(OFF, if half.on then Some(no) else None)
  }

  predicate IsOptionVerb(verb: byte) { verb == WILL || verb == WONT || verb == DO || verb == DONT }

  function Negotiate(opt: Opt, verb: byte, supported: bool): (Opt, Option<byte>) {
    if verb == WILL then var n := Request(opt.theirs, supported, DO, DONT); (opt.(theirs := n.half), n.reply)
    else if verb == WONT then var n := Refusal(opt.theirs, DONT); (opt.(theirs := n.half), n.reply)
    else if verb == DO then var n := Request(opt.ours, supported, WILL, WONT); (opt.(ours := n.half), n.reply)
    else if verb == DONT then var n := Refusal(opt.ours, WONT); (opt.(ours := n.half), n.reply)
    else (opt, None)
  }

  function SetOpt(table: OptTable, option: byte, opt: Opt): OptTable { table[option as int := opt] }

  /** The table after initialisation and our six initial offers. */
  function InitialOptions(): OptTable {
    seq(256, i => Opt(Half(i == 0 || i == 1 || i == 3, false), Half(i == 0 || i == 3 || i == 44, false)))
  }

  const INITIAL_OFFERS: seq<byte> :=
    [IAC, WILL, TRANSMIT_BINARY, IAC, DO, TRANSMIT_BINARY, IAC, WILL, ECHO,
     IAC, WILL, SUPPRESS_GO_AHEAD, IAC, DO, SUPPRESS_GO_AHEAD, IAC, DO, COM_PORT]

  // ---------- Writing data ----------

  /** One byte of data on the wire: IAC doubled, and NUL after a bare CR outside binary mode. */
  function EscWrite(binary: bool, last: byte, c: byte): (wire: seq<byte>)
    ensures 1 <= |wire| <= 2
  {
    if c == IAC then [c, c]
    else if c != LF && !binary && last == CR then [NUL, c]
    else [c]
  }

  function EscWriteAll(binary: bool, last: byte, data: seq<byte>): (wire: seq<byte>)
    ensures |wire| <= 2 * |data|
    decreases |data|
  {
    if data == [] then [] else EscWrite(binary, last, data[0]) + EscWriteAll(binary, data[0], data[1..])
  }

  function LastOf(last: byte, data: seq<byte>): byte { if data == [] then last else data[|data| - 1] }

  // ---------- The server ----------

  /**
   * long is 4 or 8 bytes wide; the signature is the program's name, version and device name; asserts says whether
   * assertions are compiled in.
   */
  datatype Platform = Platform(longSize: nat, signature: seq<byte>, asserts: bool)

  ghost predicate ValidPlatform(p: Platform) { (p.longSize == 4 || p.longSize == 8) && |p.signature| <= 254 }

  datatype Server = Server(
    platform: Platform,
    options: OptTable,
    last: byte,
    port: Port,
    lineStateMask: byte,
    modemStateMask: byte,
    modemState: byte,
    breakSignaled: bool,
    inputFlow: bool)
  {
    /** Whether what we send is binary. */
    predicate SendsBinary() { options[TRANSMIT_BINARY as int].ours.on }

    /** Whether what we receive is binary. */
    predicate ReceivesBinary() { options[TRANSMIT_BINARY as int].theirs.on }
  }

  datatype Did = Did(server: Server, wire: seq<byte>)

  /** A COM-port reply: IAC SB COM-PORT code, escaped parameters, IAC SE. */
  function SendReply(s: Server, code: byte, parameters: seq<byte>): (did: Did)
    ensures 6 <= |did.wire| <= 6 + 2 * |parameters|
  {
    Did(s.(last := LastOf(s.last, parameters)),
        [IAC, SB, COM_PORT, code] + EscWriteAll(s.SendsBinary(), s.last, parameters) + [IAC, SE])
  }

  /** A speed as the source lays it out: four bytes in network order, padded to the width of long. */
  function SpeedBytes(rate: nat, longSize: nat): (bytes: seq<byte>)
    requires rate < 0x1_0000_0000 && longSize >= 4
    ensures |bytes| == longSize
  {
    [(rate / 0x100_0000) as byte, (rate / 0x1_0000 % 256) as byte, (rate / 256 % 256) as byte, (rate % 256) as byte]
      + seq(longSize - 4, _ => 0 as byte)
  }

  function RateOf(b: seq<byte>): nat
    requires |b| == 4
  {
    b[0] as nat * 0x100_0000 + b[1] as nat * 0x1_0000 + b[2] as nat * 256 + b[3] as nat
  }

  // ---------- COM-port commands ----------

  /** What a command makes the server say. */
  datatype Reply = NoReply | ByteReply(code: byte, value: byte) | SpeedReply(rate: nat) | SignatureReply

  /** How many bytes a sub-negotiation of this kind has once complete, unless it is a signature. */
  function CompleteSize(kind: byte): nat {
    if kind == SET_BAUDRATE then 10
    else if kind == FLOWCONTROL_SUSPEND || kind == FLOWCONTROL_RESUME then 6
    else 7
  }

  /** What the receiver hands over: three bytes, or a sub-negotiation of its kind's size. */
  predicate Dispatchable(command: seq<byte>) {
    && 3 <= |command| <= COMMAND_SIZE
    && command[0] == IAC && command[1] != IAC
    && (command[1] != SB ==> |command| == 3)
    && (command[1] == SB ==> |command| >= 6)
    && (command[1] == SB && command[3] != SIGNATURE ==> |command| == CompleteSize(command[3]))
  }

  /** The change a COM-port command makes and the reply it asks for. */
  function Perform(s: Server, command: seq<byte>): (Server, Reply)
    requires Dispatchable(command) && command[1] == SB
  {
    var kind := command[3];
    if kind == SIGNATURE then (s, if |command| == 6 then SignatureReply else NoReply)
    else if kind == FLOWCONTROL_SUSPEND then (s.(inputFlow := false), NoReply)
    else if kind == FLOWCONTROL_RESUME then (s.(inputFlow := true), NoReply)
    else
      var t, value := s.port.termios, command[4];
      if kind == SET_BAUDRATE then
        var rate := RateOf(command[4..8]);
        var s' := if rate == 0 then s else s.(port := s.port.(termios := WithSpeed(t, rate)));
        (s', SpeedReply(SpeedOf(s'.port.termios)))
      else if kind == SET_DATASIZE then
        var s' := if value == 0 then s else s.(port := s.port.(termios := WithDataSize(t, value)));
        (s', ByteReply(100 + kind, DataSizeOf(s'.port.termios)))
      else if kind == SET_PARITY then
        var s' := if value == 0 then s else s.(port := s.port.(termios := WithParity(t, value)));
        (s', ByteReply(100 + kind, ParityOf(s'.port.termios)))
      else if kind == SET_STOPSIZE then
        var s' := if value == 0 then s else s.(port := s.port.(termios := WithStopSize(t, value)));
        (s', ByteReply(100 + kind, StopSizeOf(s'.port.termios)))
      else if kind == SET_CONTROL then PerformControl(s, value)
      else if kind == SET_LINESTATE_MASK then
        var mask := AndBytes(value, 16);
        (s.(lineStateMask := mask), ByteReply(100 + kind, mask))
      else if kind == SET_MODEMSTATE_MASK then (s.(modemStateMask := value), ByteReply(100 + kind, value))
      else if kind == PURGE_DATA then (s, ByteReply(100 + kind, value))
      else (s, NoReply)
  }

  function PerformControl(s: Server, value: byte): (Server, Reply) {
    var code := 100 + SET_CONTROL;
    if value == FLOW_REQ || value == DTR_REQ || value == RTS_REQ || value == INFLOW_REQ then
      (s, ByteReply(code, FlowControlOf(s.port, value)))
    else if value == BREAK_REQ then (s, ByteReply(code, if s.breakSignaled then BREAK_ON else BREAK_OFF))
    else if value == BREAK_ON then (s.(breakSignaled := true), ByteReply(code, BREAK_ON))
    else if value == BREAK_OFF then (s.(breakSignaled := false), ByteReply(code, BREAK_OFF))
    else
      var s' := s.(port := WithFlowControl(s.port, value));
      (s', ByteReply(code, FlowControlOf(s'.port, FLOW_REQ)))
  }

  function Say(s: Server, reply: Reply): Did
    requires ValidPlatform(s.platform) && (reply.SpeedReply? ==> reply.rate < 0x1_0000_0000)
  {
    match reply
    case NoReply => Did(s, [])
    case ByteReply(code, value) => SendReply(s, code, [value])
    case SpeedReply(rate) => SendReply(s, 100 + SET_BAUDRATE, SpeedBytes(rate, s.platform.longSize))
    case SignatureReply => SendReply(s, 100 + SIGNATURE, s.platform.signature)
  }

  function HandleCPCCommand(s: Server, command: seq<byte>): Did
    requires ValidPlatform(s.platform) && Dispatchable(command) && command[1] == SB
  {
    var (s', reply) := Perform(s, command);
    Say(s', reply)
  }

  /** Common handling of every command. */
  function HandleIACCommand(s: Server, command: seq<byte>): Did
    requires ValidPlatform(s.platform) && Dispatchable(command)
  {
    var verb, option := command[1], command[2];
    var opt := s.options[option as int];
    if verb == SB then
      if (opt.ours.on || opt.theirs.on) && option == COM_PORT then HandleCPCCommand(s, command) else Did(s, [])
    else if IsOptionVerb(verb) then
      var (opt', reply) := Negotiate(opt, verb, Supported(option));
      Did(s.(options := SetOpt(s.options, option, opt')), if reply.Some? then [IAC, reply.value, option] else [])
    else Did(s, [])
  }

  /** COM-port commands leave the option table, the remembered modem state and the last written byte alone. */
  ghost predicate SameBut(s: Server, s': Server) {
    s'.platform == s.platform && s'.options == s.options && s'.last == s.last && s'.modemState == s.modemState
  }

  lemma PerformLeaves(s: Server, command: seq<byte>)
    requires Dispatchable(command) && command[1] == SB
    ensures SameBut(s, Perform(s, command).0)
    ensures var reply := Perform(s, command).1; reply.SpeedReply? ==> reply.rate < 0x1_0000_0000
  {
    hide RateOf, WithSpeed, SpeedOf, AndBytes, WithFlowControl, FlowControlOf;
    RateIsSmall(Perform(s, command).0.port.termios);
  }

  lemma RateIsSmall(t: Termios)
    ensures SpeedOf(t) < 0x1_0000_0000
  {}

  lemma HandlingLeaves(s: Server, command: seq<byte>)
    requires ValidPlatform(s.platform) && Dispatchable(command)
    ensures var s' := HandleIACCommand(s, command).server;
            && s'.platform == s.platform
            && s'.modemState == s.modemState
            && (command[1] == SB ==> s'.options == s.options)
  {
    if command[1] == SB {
      PerformLeaves(s, command);
    }
    hide Perform, EscWriteAll, SpeedBytes, Negotiate;
  }

  // ---------- Receiving ----------

  datatype Escape = Normal | Received | Receiving

  /** The receiver: escape states, the command so far and the last byte seen. */
  datatype Receiver = Receiver(esc: Escape, sig: Escape, command: seq<byte>, last: byte)

  datatype Step = Step(receiver: Receiver, data: seq<byte>, command: Option<seq<byte>>)

  predicate IsSignature(command: seq<byte>) { |command| >= 4 && command[1] == SB && command[3] == SIGNATURE }

  function Appended(command: seq<byte>, c: byte): seq<byte> {
    if |command| < COMMAND_SIZE then command + [c] else command
  }

  /** One byte from the network: at most one byte of data and at most one complete command. */
  function Receive(r: Receiver, binary: bool, c: byte): Step
    requires r.esc == Receiving ==> |r.command| >= 2
  {
    var seen := r.(last := c);
    match r.esc
    case Normal =>
      if c == IAC then Step(seen.(esc := Received), [], None)
      else if !binary && c == NUL && r.last == CR then Step(seen, [], None)
      else Step(seen, [c], None)
    case Received =>
      if c == IAC then Step(seen.(esc := Normal), [c], None)
      else Step(Receiver(Receiving, Normal, [IAC, c], c), [], None)
    case Receiving =>
      if r.command[1] != SB then Step(Receiver(Normal, r.sig, r.command + [c], c), [], Some(r.command + [c]))
      else if |r.command| < 4 then Step(seen.(command := r.command + [c]), [], None)
      else if r.command[3] == SIGNATURE then ReceiveSignature(r, c)
      else
        var command := r.command + [c];
        if |command| == CompleteSize(command[3]) then Step(Receiver(Normal, r.sig, command, c), [], Some(command))
        else Step(seen.(command := command), [], None)
  }

  function ReceiveSignature(r: Receiver, c: byte): Step {
    var seen := r.(last := c);
    match r.sig
    case Normal =>
      if c == IAC then Step(seen.(sig := Received), [], None)
      else Step(seen.(command := Appended(r.command, c)), [], None)
    case Receiving => Step(seen.(sig := Normal), [], None)
    case Received =>
      if c == IAC then Step(seen.(sig := Normal, command := Appended(r.command, c)), [], None)
      else
        var command := Appended(Appended(r.command, IAC), c);
        Step(Receiver(Normal, Received, command, c), [], Some(command))
  }

  /** What holds of the receiver between any two bytes. */
  ghost predicate ValidReceiver(r: Receiver) {
    && r.sig != Receiving
    && |r.command| <= COMMAND_SIZE
    && (r.esc == Receiving ==>
          && |r.command| >= 2 && r.command[0] == IAC && r.command[1] != IAC
          && (r.command[1] != SB ==> |r.command| == 2)
          && (r.command[1] == SB && |r.command| >= 4 && r.command[3] != SIGNATURE ==>
                |r.command| < CompleteSize(r.command[3])))
  }

  lemma ReceiveKeepsValid(r: Receiver, binary: bool, c: byte)
    requires ValidReceiver(r)
    ensures var step := Receive(r, binary, c);
            && ValidReceiver(step.receiver)
            && |step.data| <= 1
            && (step.command.Some? ==> Dispatchable(step.command.value))
  {}
}
