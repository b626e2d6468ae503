/**
 * Streams of bytes through the receiver: data and commands come out as they were put in, a command never
 * holds the receiver for long, and escaped data survives either transmission mode.
 */
module TelnetStreams {
  import opened Bitwise
  import opened Telnet

  // ---------- One byte, and any number of bytes ----------

  /** net and dev are the bytes produced for the network and the device, commands those handled. */
  datatype Redirected = Redirected(server: Server, receiver: Receiver, net: seq<byte>, dev: seq<byte>,
      commands: seq<seq<byte>>)

  ghost predicate Sound(s: Server, r: Receiver) { ValidPlatform(s.platform) && ValidReceiver(r) }

  function EscRedirectChar(s: Server, r: Receiver, c: byte): (out: Redirected)
    requires Sound(s, r)
    ensures Sound(out.server, out.receiver)
  {
    ReceiveKeepsValid(r, s.ReceivesBinary(), c);
    var step := Receive(r, s.ReceivesBinary(), c);
    if step.command.None? then Redirected(s, step.receiver, [], step.data, [])
    else
      var did := HandleIACCommand(s, step.command.value);
      HandlingLeaves(s, step.command.value);
      Redirected(did.server, step.receiver, did.wire, step.data, [step.command.value])
  }

  function RedirectAll(s: Server, r: Receiver, bytes: seq<byte>): (out: Redirected)
    requires Sound(s, r)
    ensures Sound(out.server, out.receiver)
    decreases |bytes|
  {
    if bytes == [] then Redirected(s, r, [], [], [])
    else
      var first := EscRedirectChar(s, r, bytes[0]);
      Then(first, RedirectAll(first.server, first.receiver, bytes[1..]))
  }

  function Then(first: Redirected, second: Redirected): Redirected {
    Redirected(second.server, second.receiver, first.net + second.net, first.dev + second.dev,
        first.commands + second.commands)
  }

  lemma {:induction false} RedirectAppend(s: Server, r: Receiver, a: seq<byte>, b: seq<byte>)
    requires Sound(s, r)
    ensures var first := RedirectAll(s, r, a);
            RedirectAll(s, r, a + b) == Then(first, RedirectAll(first.server, first.receiver, b))
    decreases |a|
  {
    hide EscRedirectChar, Sound;
    if a == [] {
      assert a + b == b;
      ThenNothing(RedirectAll(s, r, b));
    } else {
      assert (a + b)[0] == a[0] && (a + b)[1..] == a[1..] + b;
      var one := EscRedirectChar(s, r, a[0]);
      RedirectAppend(one.server, one.receiver, a[1..], b);
      var rest := RedirectAll(one.server, one.receiver, a[1..]);
      ThenAssociates(one, rest, RedirectAll(rest.server, rest.receiver, b));
    }
  }

  lemma ThenNothing(out: Redirected)
    ensures Then(Redirected(out.server, out.receiver, [], [], []), out) == out
  {}

  lemma ThenAssociates(a: Redirected, b: Redirected, c: Redirected)
    ensures Then(Then(a, b), c) == Then(a, Then(b, c))
  {
    assert a.net + b.net + c.net == a.net + (b.net + c.net);
    assert a.dev + b.dev + c.dev == a.dev + (b.dev + c.dev);
    assert a.commands + b.commands + c.commands == a.commands + (b.commands + c.commands);
  }

  lemma RedirectOne(s: Server, r: Receiver, c: byte)
    requires Sound(s, r)
    ensures RedirectAll(s, r, [c]) == EscRedirectChar(s, r, c)
  {
    hide EscRedirectChar, Sound;
    var one := EscRedirectChar(s, r, c);
    assert [c][1..] == [];
    assert RedirectAll(one.server, one.receiver, []) == Redirected(one.server, one.receiver, [], [], []);
    assert one.net + [] == one.net && one.dev + [] == one.dev && one.commands + [] == one.commands;
  }

  // ---------- Escaped data ----------

  /** What one written byte becomes at a receiver in the same mode that last saw the same byte. */
  lemma OneByteArrives(s: Server, r: Receiver, c: byte)
    requires Sound(s, r) && r.esc == Normal
    ensures RedirectAll(s, r, EscWrite(s.ReceivesBinary(), r.last, c)) == Redirected(s, r.(last := c), [], [c], [])
  {
    hide RedirectAll, EscRedirectChar, HandleIACCommand;
    var wire := EscWrite(s.ReceivesBinary(), r.last, c);
    if |wire| == 1 {
      QuietStep(s, r, c);
    } else {
      QuietStep(s, r, wire[0]);
      var mid := Receive(r, s.ReceivesBinary(), wire[0]).receiver;
      QuietStep(s, mid, c);
      RedirectAppend(s, r, [wire[0]], [c]);
      assert wire == [wire[0]] + [c];
    }
  }

  /** Whatever is written arrives, in either mode, with both ends agreeing on the last byte after each one. */
  lemma {:induction false} EscapedDataArrives(s: Server, r: Receiver, data: seq<byte>)
    requires Sound(s, r) && r.esc == Normal
    ensures RedirectAll(s, r, EscWriteAll(s.ReceivesBinary(), r.last, data))
         == Redirected(s, r.(last := LastOf(r.last, data)), [], data, [])
    decreases |data|
  {
    hide EscRedirectChar, RedirectAll, EscWrite;
    if data == [] {
      NothingRedirected(s, r);
    } else {
      var binary := s.ReceivesBinary();
      OneByteArrives(s, r, data[0]);
      EscapedDataArrives(s, r.(last := data[0]), data[1..]);
      RedirectAppend(s, r, EscWrite(binary, r.last, data[0]), EscWriteAll(binary, data[0], data[1..]));
      assert [data[0]] + data[1..] == data;
    }
  }

  lemma {:induction false} EscWriteOneMore(binary: bool, last: byte, text: seq<byte>, c: byte)
    ensures EscWriteAll(binary, last, text + [c])
         == EscWriteAll(binary, last, text) + EscWrite(binary, LastOf(last, text), c)
    decreases |text|
  {
    hide EscWrite;
    if text == [] {
      assert [c][1..] == [];
      assert EscWriteAll(binary, last, [c]) == EscWrite(binary, last, c) + [];
    } else {
      EscWriteOneMore(binary, text[0], text[1..], c);
      assert (text + [c])[1..] == text[1..] + [c];
    }
  }

  lemma NothingRedirected(s: Server, r: Receiver)
    requires Sound(s, r)
    ensures RedirectAll(s, r, []) == Redirected(s, r, [], [], [])
  {}

  // ---------- Data and commands mixed, in binary mode ----------

  datatype Item =
    | Data(bytes: seq<byte>)
    | OptionCommand(verb: byte, option: byte)
    | PortCommand(kind: byte, parameters: seq<byte>)
    | SignatureCommand(text: seq<byte>)

  function Doubled(bytes: seq<byte>): seq<byte> { EscWriteAll(true, NUL, bytes) }

  /** The item as RFC 854 and RFC 2217 put it on the wire, every IAC inside it doubled. */
  function WireOf(item: Item): seq<byte> {
    match item
    case Data(bytes) => Doubled(bytes)
    case OptionCommand(verb, option) => [IAC, verb, option]
    case PortCommand(kind, parameters) => [IAC, SB, COM_PORT, kind] + Doubled(parameters) + [IAC, SE]
    case SignatureCommand(text) => SIGNATURE_HEAD + Doubled(text) + [IAC, SE]
  }

  function DataOf(item: Item): seq<byte> { if item.Data? then item.bytes else [] }

  /** The command the item means, unescaped. */
  function CommandsOf(item: Item): seq<seq<byte>> {
    match item
    case Data(_) => []
    case OptionCommand(verb, option) => [[IAC, verb, option]]
    case PortCommand(kind, parameters) => [[IAC, SB, COM_PORT, kind] + parameters + [IAC, SE]]
    case SignatureCommand(text) => [SIGNATURE_HEAD + text + [IAC, SE]]
  }

  /** Items a client may send without leaving binary mode. */
  ghost predicate Sendable(item: Item) {
    match item
    case Data(_) => true
    case OptionCommand(verb, option) => verb != SB && verb != IAC && !(verb == WONT && option == TRANSMIT_BINARY)
    case PortCommand(kind, parameters) => kind != SIGNATURE && 6 + |parameters| == CompleteSize(kind)
    case SignatureCommand(_) => true
  }

  /** What the receiver gets right: parameters without IAC, and signatures that fit its command buffer. */
  predicate Survives(item: Item) {
    match item
    case Data(_) => true
    case OptionCommand(_, _) => true
    case PortCommand(_, parameters) => IAC !in parameters
    case SignatureCommand(text) => |text| <= 249
  }

  lemma BinaryModeIgnoresLast(last: byte, bytes: seq<byte>)
    ensures EscWriteAll(true, last, bytes) == Doubled(bytes)
  {}

  lemma {:induction false} NothingToDouble(bytes: seq<byte>)
    requires IAC !in bytes
    ensures Doubled(bytes) == bytes
  {
    if bytes != [] {
      BinaryModeIgnoresLast(bytes[0], bytes[1..]);
      NothingToDouble(bytes[1..]);
    }
  }

  lemma DoubledStep(bytes: seq<byte>)
    requires bytes != []
    ensures Doubled(bytes) == (if bytes[0] == IAC then [IAC, IAC] else [bytes[0]]) + Doubled(bytes[1..])
  {
    BinaryModeIgnoresLast(bytes[0], bytes[1..]);
  }

  // ---------- Steps of the receiver ----------

  /** A byte that completes no command. */
  lemma QuietStep(s: Server, r: Receiver, c: byte)
    requires Sound(s, r) && Receive(r, s.ReceivesBinary(), c).command.None?
    ensures var step := Receive(r, s.ReceivesBinary(), c);
            RedirectAll(s, r, [c]) == Redirected(s, step.receiver, [], step.data, [])
  {
    RedirectOne(s, r, c);
    hide RedirectAll, Receive, HandleIACCommand;
  }

  /** A byte that completes a command. */
  lemma HandledStep(s: Server, r: Receiver, c: byte)
    requires Sound(s, r) && Receive(r, s.ReceivesBinary(), c).command.Some?
    ensures var out := RedirectAll(s, r, [c]);
            var step := Receive(r, s.ReceivesBinary(), c);
            && out.receiver == step.receiver && out.dev == step.data && out.commands == [step.command.value]
            && Dispatchable(step.command.value)
            && Did(out.server, out.net) == HandleIACCommand(s, step.command.value)
  {
    RedirectOne(s, r, c);
    ReceiveKeepsValid(r, s.ReceivesBinary(), c);
    hide RedirectAll, Receive, HandleIACCommand, Dispatchable;
  }

  /** Mid-command after these bytes, with nothing delivered or handled since they began. */
  function Mid(s: Server, command: seq<byte>, last: byte): Redirected {
    Redirected(s, Receiver(Receiving, Normal, command, last), [], [], [])
  }

  lemma QuietAfter(s: Server, r: Receiver, bytes: seq<byte>, c: byte)
    requires Sound(s, r)
    requires var q := RedirectAll(s, r, bytes);
             q.server == s && q.net == [] && q.dev == [] && q.commands == []
             && var step := Receive(q.receiver, s.ReceivesBinary(), c); step.command.None? && step.data == []
    ensures var q := RedirectAll(s, r, bytes);
            RedirectAll(s, r, bytes + [c]) == Redirected(s, Receive(q.receiver, s.ReceivesBinary(), c).receiver,
                [], [], [])
  {
    var q := RedirectAll(s, r, bytes);
    RedirectAppend(s, r, bytes, [c]);
    QuietStep(s, q.receiver, c);
    hide RedirectAll, Receive, Sound;
  }

  // ---------- Commands of a fixed length ----------

  /** A command of a fixed length is held byte for byte until it is complete. */
  lemma {:induction false} FixedCommandIsHeld(s: Server, r: Receiver, command: seq<byte>, n: nat)
    requires Sound(s, r) && r.esc == Normal
    requires Dispatchable(command) && !IsSignature(command)
    requires 2 <= n < |command|
    ensures RedirectAll(s, r, command[..n]) == Mid(s, command[..n], command[n - 1])
    decreases n
  {
    hide RedirectAll, Sound, CompleteSize;
    assert command[..n] == command[..n - 1] + [command[n - 1]];
    if n == 2 {
      assert command[..1] == [IAC];
      QuietStep(s, r, IAC);
      QuietAfter(s, r, [IAC], command[1]);
    } else {
      FixedCommandIsHeld(s, r, command, n - 1);
      QuietAfter(s, r, command[..n - 1], command[n - 1]);
    }
  }

  lemma FixedCommandIsHandled(s: Server, r: Receiver, command: seq<byte>)
    requires Sound(s, r) && r.esc == Normal
    requires Dispatchable(command) && !IsSignature(command)
    ensures var out := RedirectAll(s, r, command);
            && out.commands == [command] && out.dev == [] && out.receiver.esc == Normal
            && Did(out.server, out.net) == HandleIACCommand(s, command)
  {
    hide RedirectAll, Sound, HandleIACCommand, CompleteSize;
    var n := |command| - 1;
    var c := command[n];
    assert command == command[..n] + [c];
    FixedCommandIsHeld(s, r, command, n);
    RedirectAppend(s, r, command[..n], [c]);
    HandledStep(s, Mid(s, command[..n], command[n - 1]).receiver, c);
  }

  // ---------- Signatures ----------

  const SIGNATURE_HEAD: seq<byte> := [IAC, SB, COM_PORT, SIGNATURE]

  /** One byte of signature text, doubled if it is IAC. */
  lemma SignatureByteIsHeld(s: Server, r: Receiver, c: byte)
    requires Sound(s, r) && r.esc == Receiving && r.sig == Normal
    requires IsSignature(r.command) && |r.command| < COMMAND_SIZE
    ensures RedirectAll(s, r, if c == IAC then [IAC, IAC] else [c]) == Mid(s, r.command + [c], c)
  {
    hide RedirectAll;
    QuietStep(s, r, c);
    if c == IAC {
      NothingRedirected(s, r);
      assert [IAC, IAC] == [IAC] + [IAC];
      QuietAfter(s, r, [IAC], IAC);
    }
  }

  lemma {:induction false} SignatureTextIsHeld(s: Server, r: Receiver, text: seq<byte>)
    requires Sound(s, r) && r.esc == Receiving && r.sig == Normal
    requires IsSignature(r.command) && |r.command| + |text| <= COMMAND_SIZE
    ensures RedirectAll(s, r, Doubled(text)) == Mid(s, r.command + text, LastOf(r.last, text))
    decreases |text|
  {
    hide RedirectAll, EscWriteAll, Sound;
    if text == [] {
      NothingRedirected(s, r);
      NothingToDouble(text);
      assert r.command + text == r.command;
    } else {
      var c := text[0];
      var r' := r.(command := r.command + [c], last := c);
      SignatureByteIsHeld(s, r, c);
      DoubledStep(text);
      SignatureTextIsHeld(s, r', text[1..]);
      RedirectAppend(s, r, if c == IAC then [IAC, IAC] else [c], Doubled(text[1..]));
      assert r.command + [c] + text[1..] == r.command + text;
    }
  }

  lemma SignatureIsHeld(s: Server, r: Receiver, text: seq<byte>)
    requires Sound(s, r) && r.esc == Normal && |text| <= 249
    ensures RedirectAll(s, r, SIGNATURE_HEAD + Doubled(text)) == Mid(s, SIGNATURE_HEAD + text, LastOf(SIGNATURE, text))
  {
    SignatureHeadIsHeld(s, r);
    var mid := Mid(s, SIGNATURE_HEAD, SIGNATURE);
    assert SIGNATURE_HEAD[0] == IAC && SIGNATURE_HEAD[1] == SB && SIGNATURE_HEAD[3] == SIGNATURE;
    SignatureTextIsHeld(s, mid.receiver, text);
    hide RedirectAll, Doubled, LastOf, SIGNATURE_HEAD;
    RedirectAppend(s, r, SIGNATURE_HEAD, Doubled(text));
  }

  lemma SignatureIsHandled(s: Server, r: Receiver, text: seq<byte>)
    requires Sound(s, r) && r.esc == Normal && |text| <= 249
    ensures var out := RedirectAll(s, r, SIGNATURE_HEAD + Doubled(text) + [IAC, SE]);
            var command := SIGNATURE_HEAD + text + [IAC, SE];
            && out.commands == [command] && out.dev == [] && out.receiver.esc == Normal
            && Dispatchable(command) && out.server == HandleIACCommand(s, command).server
  {
    SignatureIsHeld(s, r, text);
    assert SIGNATURE_HEAD[0] == IAC && SIGNATURE_HEAD[1] == SB && SIGNATURE_HEAD[3] == SIGNATURE;
    hide RedirectAll, Doubled, Sound, HandleIACCommand, LastOf, SIGNATURE_HEAD;
    RedirectAppend(s, r, SIGNATURE_HEAD + Doubled(text), [IAC, SE]);
    SignatureEnds(s, Mid(s, SIGNATURE_HEAD + text, LastOf(SIGNATURE, text)).receiver);
  }

  const PURGE_COMMAND: seq<byte> := [IAC, SB, COM_PORT, PURGE_DATA, NUL, IAC, SE]

  lemma ShortCommand()
    ensures Dispatchable(PURGE_COMMAND) && !IsSignature(PURGE_COMMAND)
  {}

  lemma FourthByteIsHeld(binary: bool)
    ensures var three := [IAC, SB, COM_PORT];
            var step := Receive(Receiver(Receiving, Normal, three, COM_PORT), binary, SIGNATURE);
            && step.receiver == Receiver(Receiving, Normal, three + [SIGNATURE], SIGNATURE)
            && step.command.None? && step.data == []
  {}

  lemma SignatureHeadIsHeld(s: Server, r: Receiver)
    requires Sound(s, r) && r.esc == Normal
    ensures RedirectAll(s, r, SIGNATURE_HEAD) == Mid(s, SIGNATURE_HEAD, SIGNATURE)
  {
    // Until the fourth byte a signature is received like any other sub-negotiation.
    var three := [IAC, SB, COM_PORT];
    ShortCommand();
    FourthByteIsHeld(s.ReceivesBinary());
    hide RedirectAll, Sound, Dispatchable, IsSignature, Receive;
    FixedCommandIsHeld(s, r, PURGE_COMMAND, 3);
    assert PURGE_COMMAND[..3] == three && PURGE_COMMAND[2] == COM_PORT;
    QuietAfter(s, r, three, SIGNATURE);
    assert three + [SIGNATURE] == SIGNATURE_HEAD;
  }

  lemma SignatureEnds(s: Server, r: Receiver)
    requires Sound(s, r) && r.esc == Receiving && r.sig == Normal
    requires IsSignature(r.command) && |r.command| + 2 <= COMMAND_SIZE
    ensures var out := RedirectAll(s, r, [IAC, SE]);
            && out.commands == [r.command + [IAC, SE]] && out.dev == [] && out.receiver.esc == Normal
            && Dispatchable(r.command + [IAC, SE])
            && out.server == HandleIACCommand(s, r.command + [IAC, SE]).server
  {
    hide RedirectAll, HandleIACCommand, Sound;
    QuietStep(s, r, IAC);
    assert [IAC, SE] == [IAC] + [SE];
    RedirectAppend(s, r, [IAC], [SE]);
    HandledStep(s, r.(sig := Received, last := IAC), SE);
    assert r.command + [IAC] + [SE] == r.command + [IAC, SE];
  }

  // ---------- What doubling shows ----------

  /**
   * Parameters that hold an IAC, doubled on the wire, never start with what they and the closing IAC SE would be
   * undoubled; `owed` counts the IACs the doubling has put ahead.
   */
  lemma {:induction false} DoublingShows(parameters: seq<byte>, owed: nat)
    requires owed > 0 || IAC in parameters
    ensures !(parameters + [IAC, SE] <= seq(owed, _ => IAC) + Doubled(parameters) + [IAC, SE])
    decreases |parameters|
  {
    hide Doubled, EscWriteAll;
    var plain, wire := parameters + [IAC, SE], seq(owed, _ => IAC) + Doubled(parameters) + [IAC, SE];
    if parameters == [] {
      NothingToDouble(parameters);
      assert plain[1] == SE && wire[1] == IAC;
    } else {
      var rest := parameters[1..];
      DoubledStep(parameters);
      assert plain[0] == parameters[0] && plain[1..] == rest + [IAC, SE];
      if parameters[0] == IAC {
        DoublingShows(rest, owed + 1);
        assert wire[1..] == seq(owed + 1, _ => IAC) + Doubled(rest) + [IAC, SE];
      } else if owed > 0 {
        assert wire[0] == IAC;
      } else {
        DoublingShows(rest, 0);
        assert wire[1..] == seq(0, _ => IAC) + Doubled(rest) + [IAC, SE];
      }
    }
  }

  // ---------- One item, and any number of items ----------

  ghost predicate Ready(s: Server, r: Receiver) { Sound(s, r) && r.esc == Normal && s.ReceivesBinary() }

  /** The item came out as it was put in, and the next one finds the receiver as this one did. */
  ghost predicate Arrives(s: Server, r: Receiver, item: Item)
    requires Sound(s, r)
  {
    var out := RedirectAll(s, r, WireOf(item));
    out.dev == DataOf(item) && out.commands == CommandsOf(item) && Ready(out.server, out.receiver)
  }

  lemma BinaryModeStays(s: Server, command: seq<byte>)
    requires ValidPlatform(s.platform) && Dispatchable(command) && s.ReceivesBinary()
    requires command[1] != WONT || command[2] != TRANSMIT_BINARY
    ensures HandleIACCommand(s, command).server.ReceivesBinary()
  {
    HandlingLeaves(s, command);
    hide HandleCPCCommand;
  }

  lemma DataItemArrives(s: Server, r: Receiver, bytes: seq<byte>)
    requires Ready(s, r)
    ensures Arrives(s, r, Data(bytes))
  {
    BinaryModeIgnoresLast(r.last, bytes);
    EscapedDataArrives(s, r, bytes);
    hide RedirectAll, Doubled;
  }

  lemma OptionItemArrives(s: Server, r: Receiver, verb: byte, option: byte)
    requires Ready(s, r) && Sendable(OptionCommand(verb, option))
    ensures Arrives(s, r, OptionCommand(verb, option))
  {
    var command := [IAC, verb, option];
    FixedCommandIsHandled(s, r, command);
    BinaryModeStays(s, command);
    hide RedirectAll, HandleIACCommand;
  }

  function PortHead(kind: byte): seq<byte> { [IAC, SB, COM_PORT, kind] }

  /** Whatever bytes follow the head of a port command, as many of them as it wants are its command. */
  lemma PortBytesAreHandled(s: Server, r: Receiver, kind: byte, bytes: seq<byte>)
    requires Ready(s, r) && kind != SIGNATURE && 4 + |bytes| == CompleteSize(kind)
    ensures var out := RedirectAll(s, r, PortHead(kind) + bytes);
            out.commands == [PortHead(kind) + bytes] && out.dev == [] && Ready(out.server, out.receiver)
  {
    var command := PortHead(kind) + bytes;
    assert command[0] == IAC && command[1] == SB && command[3] == kind;
    hide RedirectAll, HandleIACCommand, PortHead;
    FixedCommandIsHandled(s, r, command);
    BinaryModeStays(s, command);
  }

  lemma SurvivingItemArrives(s: Server, r: Receiver, item: Item)
    requires Ready(s, r) && Sendable(item) && Survives(item)
    ensures Arrives(s, r, item)
  {
    hide RedirectAll, Ready, Sound, HandleIACCommand, Doubled;
    match item {
      case Data(bytes) => DataItemArrives(s, r, bytes);
      case OptionCommand(verb, option) => OptionItemArrives(s, r, verb, option);
      case PortCommand(kind, parameters) =>
        NothingToDouble(parameters);
        PortBytesAreHandled(s, r, kind, parameters + [IAC, SE]);
        assert PortHead(kind) + (parameters + [IAC, SE]) == PortHead(kind) + parameters + [IAC, SE];
      case SignatureCommand(text) => SignatureItemArrives(s, r, text);
    }
  }

  lemma SignatureItemArrives(s: Server, r: Receiver, text: seq<byte>)
    requires Ready(s, r) && |text| <= 249
    ensures Arrives(s, r, SignatureCommand(text))
  {
    SignatureIsHandled(s, r, text);
    BinaryModeStays(s, SIGNATURE_HEAD + text + [IAC, SE]);
    hide RedirectAll, HandleIACCommand, Doubled;
  }

  function WireOfAll(items: seq<Item>): seq<byte> {
    if items == [] then [] else WireOf(items[0]) + WireOfAll(items[1..])
  }

  function DataOfAll(items: seq<Item>): seq<byte> {
    if items == [] then [] else DataOf(items[0]) + DataOfAll(items[1..])
  }

  function CommandsOfAll(items: seq<Item>): seq<seq<byte>> {
    if items == [] then [] else CommandsOf(items[0]) + CommandsOfAll(items[1..])
  }

  /** No command handed over is longer than the command buffer. */
  lemma {:induction false} CommandsFitBuffer(s: Server, r: Receiver, bytes: seq<byte>)
    requires Sound(s, r)
    ensures forall command <- RedirectAll(s, r, bytes).commands :: |command| <= COMMAND_SIZE
    decreases |bytes|
  {
    if bytes != [] {
      ReceiveKeepsValid(r, s.ReceivesBinary(), bytes[0]);
      hide Receive, HandleIACCommand, Sound;
      var one := EscRedirectChar(s, r, bytes[0]);
      CommandsFitBuffer(one.server, one.receiver, bytes[1..]);
    }
  }

  lemma {:induction false} DoublingLengthens(bytes: seq<byte>)
    ensures |Doubled(bytes)| >= |bytes|
  {
    if bytes != [] {
      DoubledStep(bytes);
      DoublingLengthens(bytes[1..]);
    }
  }

  /** Parameters that hold an IAC make the first command handled a wrong one, whatever follows. */
  lemma DamagedCommand(s: Server, r: Receiver, kind: byte, parameters: seq<byte>, rest: seq<byte>)
    requires Ready(s, r) && Sendable(PortCommand(kind, parameters)) && IAC in parameters
    ensures var out := RedirectAll(s, r, WireOf(PortCommand(kind, parameters)) + rest);
            out.commands != [] && out.commands[0] != PortHead(kind) + parameters + [IAC, SE]
  {
    hide RedirectAll, Sound, Doubled, CompleteSize;
    var tail := Doubled(parameters) + [IAC, SE];
    DoublingLengthens(parameters);
    var n := |parameters| + 2;
    PortBytesAreHandled(s, r, kind, tail[..n]);
    RedirectAppend(s, r, PortHead(kind) + tail[..n], tail[n..] + rest);
    assert WireOf(PortCommand(kind, parameters)) + rest == PortHead(kind) + tail[..n] + (tail[n..] + rest) by {
      assert tail == tail[..n] + tail[n..];
    }
    DoublingShows(parameters, 0);
    assert seq(0, _ => IAC) + Doubled(parameters) + [IAC, SE] == tail;
    SameHead(PortHead(kind), tail[..n], parameters + [IAC, SE]);
    assert PortHead(kind) + (parameters + [IAC, SE]) == PortHead(kind) + parameters + [IAC, SE];
  }

  lemma SameHead<T>(head: seq<T>, a: seq<T>, b: seq<T>)
    ensures head + a == head + b <==> a == b
  {
    assert (head + a)[|head|..] == a && (head + b)[|head|..] == b;
  }

  /**
   * A binary-mode stream of data and commands comes out exactly as it was put in, data and commands each in
   * order and the receiver back where it started, precisely when no parameter of a port command is IAC and no
   * signature is longer than 249 bytes.
   */
  lemma {:induction false} StreamArrivesExactlyWhenItSurvives(s: Server, r: Receiver, items: seq<Item>)
    requires Ready(s, r) && forall item <- items :: Sendable(item)
    ensures var out := RedirectAll(s, r, WireOfAll(items));
            (forall item <- items :: Survives(item))
            <==> out.dev == DataOfAll(items) && out.commands == CommandsOfAll(items) && out.receiver.esc == Normal
    decreases |items|
  {
    hide RedirectAll, Sound, Sendable, WireOf, DataOf, CommandsOf, Survives, Arrives;
    if items == [] {
      NothingRedirected(s, r);
    } else if Survives(items[0]) {
      var head, rest := items[0], items[1..];
      assert forall item :: item in items <==> item == head || item in rest;
      SurvivingItemArrives(s, r, head);
      HeadThenRest(s, r, head, WireOfAll(rest));
      var first := RedirectAll(s, r, WireOf(head));
      StreamArrivesExactlyWhenItSurvives(first.server, first.receiver, rest);
      var second := RedirectAll(first.server, first.receiver, WireOfAll(rest));
      SameHead(DataOf(head), second.dev, DataOfAll(rest));
      SameHead(CommandsOf(head), second.commands, CommandsOfAll(rest));
    } else {
      DamagedStream(s, r, items[0], WireOfAll(items[1..]), CommandsOfAll(items[1..]));
      assert !Survives(items[0]);
    }
  }

  lemma HeadThenRest(s: Server, r: Receiver, head: Item, rest: seq<byte>)
    requires Sound(s, r) && Arrives(s, r, head)
    ensures var first := RedirectAll(s, r, WireOf(head));
            && Ready(first.server, first.receiver)
            && var second := RedirectAll(first.server, first.receiver, rest);
            var out := RedirectAll(s, r, WireOf(head) + rest);
            && out.dev == DataOf(head) + second.dev
            && out.commands == CommandsOf(head) + second.commands
            && out.receiver == second.receiver
  {
    RedirectAppend(s, r, WireOf(head), rest);
    hide RedirectAll, WireOf, DataOf, CommandsOf;
  }

  lemma DamagedStream(s: Server, r: Receiver, item: Item, rest: seq<byte>, later: seq<seq<byte>>)
    requires Ready(s, r) && Sendable(item) && !Survives(item)
    ensures RedirectAll(s, r, WireOf(item) + rest).commands != CommandsOf(item) + later
  {
    hide RedirectAll, Sound, Doubled;
    match item
    case PortCommand(kind, parameters) =>
      DamagedCommand(s, r, kind, parameters, rest);
      assert (CommandsOf(item) + later)[0] == PortHead(kind) + parameters + [IAC, SE];
    case SignatureCommand(text) =>
      CommandsFitBuffer(s, r, WireOf(item) + rest);
      assert (CommandsOf(item) + later)[0] == SIGNATURE_HEAD + text + [IAC, SE];
  }

  // ---------- Data and commands in one order ----------

  /** What the receiver puts out: a byte for the device, or a command to be handled there and then. */
  datatype Output = Byte(data: byte) | Handled(command: seq<byte>)

  function BytesOut(bytes: seq<byte>): (t: seq<Output>)
    ensures |t| == |bytes|
  {
    seq(|bytes|, i requires 0 <= i < |bytes| => Byte(bytes[i]))
  }

  function CommandsOut(commands: seq<seq<byte>>): (t: seq<Output>)
    ensures |t| == |commands|
  {
    seq(|commands|, i requires 0 <= i < |commands| => Handled(commands[i]))
  }

  /** Everything put out, in the order it is put out; one byte received yields a byte or a command at most. */
  function Trace(s: Server, r: Receiver, bytes: seq<byte>): seq<Output>
    requires Sound(s, r)
    decreases |bytes|
  {
    if bytes == [] then []
    else
      var one := EscRedirectChar(s, r, bytes[0]);
      BytesOut(one.dev) + CommandsOut(one.commands) + Trace(one.server, one.receiver, bytes[1..])
  }

  function BytesIn(t: seq<Output>): seq<byte> {
    if t == [] then [] else (if t[0].Byte? then [t[0].data] else []) + BytesIn(t[1..])
  }

  function CommandsIn(t: seq<Output>): seq<seq<byte>> {
    if t == [] then [] else (if t[0].Handled? then [t[0].command] else []) + CommandsIn(t[1..])
  }

  lemma {:induction false} TraceAppend(s: Server, r: Receiver, a: seq<byte>, b: seq<byte>)
    requires Sound(s, r)
    ensures var first := RedirectAll(s, r, a);
            Trace(s, r, a + b) == Trace(s, r, a) + Trace(first.server, first.receiver, b)
    decreases |a|
  {
    hide EscRedirectChar, Sound, BytesOut, CommandsOut;
    if a == [] {
      assert a + b == b;
    } else {
      assert (a + b)[0] == a[0] && (a + b)[1..] == a[1..] + b;
      var one := EscRedirectChar(s, r, a[0]);
      TraceAppend(one.server, one.receiver, a[1..], b);
    }
  }

  lemma {:induction false} BytesAppend(a: seq<Output>, b: seq<Output>)
    ensures BytesIn(a + b) == BytesIn(a) + BytesIn(b)
  {
    if a == [] {
      assert a + b == b;
    } else {
      assert (a + b)[0] == a[0] && (a + b)[1..] == a[1..] + b;
      BytesAppend(a[1..], b);
    }
  }

  lemma {:induction false} CommandsAppend(a: seq<Output>, b: seq<Output>)
    ensures CommandsIn(a + b) == CommandsIn(a) + CommandsIn(b)
  {
    if a == [] {
      assert a + b == b;
    } else {
      assert (a + b)[0] == a[0] && (a + b)[1..] == a[1..] + b;
      CommandsAppend(a[1..], b);
    }
  }

  lemma PartsAppend(a: seq<Output>, b: seq<Output>)
    ensures BytesIn(a + b) == BytesIn(a) + BytesIn(b) && CommandsIn(a + b) == CommandsIn(a) + CommandsIn(b)
  {
    hide BytesIn, CommandsIn;
    BytesAppend(a, b);
    CommandsAppend(a, b);
  }

  lemma {:induction false} PartsOfBytes(bytes: seq<byte>)
    ensures BytesIn(BytesOut(bytes)) == bytes && CommandsIn(BytesOut(bytes)) == []
  {
    if bytes != [] {
      assert BytesOut(bytes)[1..] == BytesOut(bytes[1..]);
      PartsOfBytes(bytes[1..]);
    }
  }

  lemma {:induction false} PartsOfCommands(commands: seq<seq<byte>>)
    ensures CommandsIn(CommandsOut(commands)) == commands && BytesIn(CommandsOut(commands)) == []
  {
    if commands != [] {
      assert CommandsOut(commands)[1..] == CommandsOut(commands[1..]);
      PartsOfCommands(commands[1..]);
    }
  }

  lemma NoParts()
    ensures BytesIn([]) == [] && CommandsIn([]) == []
  {}

  lemma StepParts(one: Redirected)
    ensures var t := BytesOut(one.dev) + CommandsOut(one.commands);
            BytesIn(t) == one.dev && CommandsIn(t) == one.commands
  {
    PartsOfBytes(one.dev);
    PartsOfCommands(one.commands);
    PartsAppend(BytesOut(one.dev), CommandsOut(one.commands));
    hide BytesOut, CommandsOut, BytesIn, CommandsIn;
  }

  /** The data and the commands of the trace are those of the redirected run. */
  lemma {:induction false} TraceParts(s: Server, r: Receiver, bytes: seq<byte>)
    requires Sound(s, r)
    ensures var out := RedirectAll(s, r, bytes);
            BytesIn(Trace(s, r, bytes)) == out.dev && CommandsIn(Trace(s, r, bytes)) == out.commands
    decreases |bytes|
  {
    hide EscRedirectChar, Sound, BytesOut, CommandsOut, BytesIn, CommandsIn;
    if bytes == [] {
      NoParts();
    } else {
      var one := EscRedirectChar(s, r, bytes[0]);
      TraceParts(one.server, one.receiver, bytes[1..]);
      StepParts(one);
      PartsAppend(BytesOut(one.dev) + CommandsOut(one.commands), Trace(one.server, one.receiver, bytes[1..]));
    }
  }

  /** Of one kind only, the parts are the whole. */
  lemma {:induction false} OneKind(t: seq<Output>)
    ensures CommandsIn(t) == [] ==> t == BytesOut(BytesIn(t))
    ensures BytesIn(t) == [] ==> t == CommandsOut(CommandsIn(t))
  {
    if t != [] {
      OneKind(t[1..]);
      assert t == [t[0]] + t[1..];
    }
  }

  function TraceOf(item: Item): seq<Output> { BytesOut(DataOf(item)) + CommandsOut(CommandsOf(item)) }

  function TraceOfAll(items: seq<Item>): seq<Output> {
    if items == [] then [] else TraceOf(items[0]) + TraceOfAll(items[1..])
  }

  lemma ItemTrace(s: Server, r: Receiver, item: Item)
    requires Sound(s, r) && Arrives(s, r, item)
    ensures Trace(s, r, WireOf(item)) == TraceOf(item)
  {
    hide RedirectAll, WireOf, Trace;
    TraceParts(s, r, WireOf(item));
    OneKind(Trace(s, r, WireOf(item)));
  }

  lemma {:induction false} ItemParts(items: seq<Item>)
    ensures BytesIn(TraceOfAll(items)) == DataOfAll(items) && CommandsIn(TraceOfAll(items)) == CommandsOfAll(items)
  {
    hide DataOf, CommandsOf, BytesOut, CommandsOut;
    if items != [] {
      ItemParts(items[1..]);
      PartsOfBytes(DataOf(items[0]));
      PartsOfCommands(CommandsOf(items[0]));
      PartsAppend(BytesOut(DataOf(items[0])), CommandsOut(CommandsOf(items[0])));
      PartsAppend(TraceOf(items[0]), TraceOfAll(items[1..]));
    }
  }

  lemma {:induction false} SurvivingStreamTrace(s: Server, r: Receiver, items: seq<Item>)
    requires Ready(s, r) && forall item <- items :: Sendable(item) && Survives(item)
    ensures Trace(s, r, WireOfAll(items)) == TraceOfAll(items)
    decreases |items|
  {
    hide RedirectAll, Sound, Sendable, WireOf, TraceOf, Survives, Arrives;
    if items != [] {
      var head, rest := items[0], items[1..];
      assert head in items && forall item <- rest :: item in items;
      SurvivingItemArrives(s, r, head);
      ItemTrace(s, r, head);
      HeadThenRest(s, r, head, WireOfAll(rest));
      var first := RedirectAll(s, r, WireOf(head));
      SurvivingStreamTrace(first.server, first.receiver, rest);
      TraceAppend(s, r, WireOf(head), WireOfAll(rest));
    }
  }

  /**
   * In binary mode every byte for the device and every command is put out in its place among the others, neither
   * overtaking the other, precisely when the stream survives.
   */
  lemma StreamKeepsItsOrderExactlyWhen(s: Server, r: Receiver, items: seq<Item>)
    requires Ready(s, r) && forall item <- items :: Sendable(item)
    ensures (forall item <- items :: Survives(item))
            <==> Trace(s, r, WireOfAll(items)) == TraceOfAll(items)
                 && RedirectAll(s, r, WireOfAll(items)).receiver.esc == Normal
  {
    StreamArrivesExactlyWhenItSurvives(s, r, items);
    hide RedirectAll, Trace, TraceOfAll, Sound, Sendable, Survives;
    if forall item <- items :: Survives(item) {
      SurvivingStreamTrace(s, r, items);
    }
    TraceParts(s, r, WireOfAll(items));
    ItemParts(items);
  }

  // ---------- How long a command holds the receiver ----------

  ghost predicate InCommandThroughout(s: Server, r: Receiver, bytes: seq<byte>)
    requires Sound(s, r)
  {
    forall n :: 1 <= n <= |bytes| ==> RedirectAll(s, r, bytes[..n]).receiver.esc != Normal
  }

  /**
   * While the receiver has not come back from a command it has delivered and handled nothing, and unless the
   * command is a signature it holds exactly the bytes since the opening IAC, which are then at most nine: the
   * tenth always brings it back.
   */
  lemma {:induction false} CommandsAreBrief(s: Server, r: Receiver, bytes: seq<byte>)
    requires Sound(s, r) && r.esc == Normal && bytes != []
    requires InCommandThroughout(s, r, bytes)
    ensures var out := RedirectAll(s, r, bytes);
            && out == Redirected(s, out.receiver, [], [], [])
            && bytes[0] == IAC
            && (out.receiver.esc == Receiving <==> |bytes| > 1)
            && (|bytes| > 1 && !IsSignature(out.receiver.command) ==> out.receiver.command == bytes && |bytes| <= 9)
    decreases |bytes|
  {
    hide RedirectAll, HandleIACCommand;
    var n := |bytes| - 1;
    var c := bytes[n];
    assert bytes == bytes[..n] + [c] && bytes[..n + 1] == bytes;
    if n == 0 {
      QuietStep(s, r, c);
      assert bytes == [c];
    } else {
      forall k | 1 <= k <= n ensures bytes[..n][..k] == bytes[..k] {}
      CommandsAreBrief(s, r, bytes[..n]);
      OneMoreOfCommand(s, r, bytes[..n], c);
    }
  }

  /** One more byte of a command already begun, if it does not end it. */
  lemma HeldByte(q: Receiver, binary: bool, bytes: seq<byte>, c: byte)
    requires ValidReceiver(q) && q.esc != Normal && bytes != [] && bytes[0] == IAC
    requires q.esc == Receiving <==> |bytes| > 1
    requires |bytes| > 1 && !IsSignature(q.command) ==> q.command == bytes
    requires Receive(q, binary, c).receiver.esc != Normal
    ensures var step := Receive(q, binary, c);
            && step.command.None? && step.data == [] && step.receiver.esc == Receiving
            && (!IsSignature(step.receiver.command) ==> step.receiver.command == bytes + [c] && |bytes| < 9)
  {
    ReceiveKeepsValid(q, binary, c);
  }

  lemma OneMoreOfCommand(s: Server, r: Receiver, bytes: seq<byte>, c: byte)
    requires Sound(s, r) && bytes != []
    requires var q := RedirectAll(s, r, bytes);
             && q == Redirected(s, q.receiver, [], [], [])
             && q.receiver.esc != Normal
             && (q.receiver.esc == Receiving <==> |bytes| > 1)
             && bytes[0] == IAC
             && (|bytes| > 1 && !IsSignature(q.receiver.command) ==> q.receiver.command == bytes)
    requires RedirectAll(s, r, bytes + [c]).receiver.esc != Normal
    ensures var out := RedirectAll(s, r, bytes + [c]);
            && out == Redirected(s, out.receiver, [], [], [])
            && out.receiver.esc == Receiving
            && (!IsSignature(out.receiver.command) ==> out.receiver.command == bytes + [c] && |bytes| < 9)
  {
    hide RedirectAll, HandleIACCommand, Receive, ValidReceiver, Dispatchable;
    var q := RedirectAll(s, r, bytes);
    RedirectAppend(s, r, bytes, [c]);
    if Receive(q.receiver, s.ReceivesBinary(), c).command.Some? {
      HandledStep(s, q.receiver, c);
    } else {
      QuietStep(s, q.receiver, c);
    }
    HeldByte(q.receiver, s.ReceivesBinary(), bytes, c);
  }
}
