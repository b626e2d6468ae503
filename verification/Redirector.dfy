/** sercd.c's state and event loop. */
module Redirectors {
  import opened Wrappers
  import opened Bitwise
  import opened Ports
  import opened ModemView
  import opened RingBuffers
  import opened Telnet
  import opened TelnetStreams
  import opened Replies
  import opened Connections
  import opened Iterations

  datatype State = READY | CONNECTED | PORT_OPENED

  /** Settings before any device is opened; opening one replaces them. */
  const UNOPENED: Port :=
    Port(Termios(B(9600), B(9600), CS8, false, false, false, false, false, false), Lines(false, false, false,
        false, false, false))

  /** What was there, followed by what is said now. */
  function After(was: seq<byte>, did: Did): Did { Did(did.server, was + did.wire) }

  lemma EscapedByte(binary: bool, last: byte, c: byte)
    ensures EscWriteAll(binary, last, [c]) == EscWrite(binary, last, c)
  {
    assert [c][1..] == [];
  }

  lemma EscWriteNext(binary: bool, last: byte, text: seq<byte>, i: nat)
    requires i < |text|
    ensures EscWriteAll(binary, last, text[..i + 1])
         == EscWriteAll(binary, last, text[..i]) + EscWrite(binary, LastOf(last, text[..i]), text[i])
    ensures LastOf(last, text[..i + 1]) == text[i]
  {
    EscWriteOneMore(binary, last, text[..i], text[i]);
    assert text[..i] + [text[i]] == text[..i + 1];
  }

  lemma NothingEscaped(binary: bool, last: byte, text: seq<byte>)
    ensures EscWriteAll(binary, last, text[..0]) == [] && LastOf(last, text[..0]) == last
  {}

  /** One byte redirected, put together from receiving it and handling what it completes. */
  lemma RedirectedIs(s: Server, r: Receiver, c: byte)
    requires Sound(s, r)
    ensures var step := Receive(r, s.ReceivesBinary(), c);
            var out := TelnetStreams.EscRedirectChar(s, r, c);
            && ValidReceiver(step.receiver)
            && out.receiver == step.receiver && out.dev == step.data
            && (step.command.Some? ==>
                  Dispatchable(step.command.value)
                  && Did(out.server, out.net) == Telnet.HandleIACCommand(s, step.command.value))
            && (step.command.None? ==> out.server == s && out.net == [])
  {
    ReceiveKeepsValid(r, s.ReceivesBinary(), c);
    hide Receive, Telnet.HandleIACCommand, Dispatchable;
  }

  /** Redirecting some bytes and then one more. */
  lemma RedirectedSoFar(was: Redirected, bytes: seq<byte>, i: nat)
    requires Sound(was.server, was.receiver) && was.commands == [] && i <= |bytes|
    ensures i == 0 ==> was == Extended(was, RedirectAll(was.server, was.receiver, bytes[..i]))
    ensures i < |bytes| ==>
              var now := Extended(was, RedirectAll(was.server, was.receiver, bytes[..i]));
              Sound(now.server, now.receiver)
              && Extended(now, TelnetStreams.EscRedirectChar(now.server, now.receiver, bytes[i]))
                 == Extended(was, RedirectAll(was.server, was.receiver, bytes[..i + 1]))
  {
    hide TelnetStreams.EscRedirectChar, Sound;
    if i == 0 {
      assert was.net + [] == was.net && was.dev + [] == was.dev;
    }
    if i < |bytes| {
      var out := RedirectAll(was.server, was.receiver, bytes[..i]);
      RedirectAppend(was.server, was.receiver, bytes[..i], [bytes[i]]);
      RedirectOne(out.server, out.receiver, bytes[i]);
      assert bytes[..i] + [bytes[i]] == bytes[..i + 1];
      var one := TelnetStreams.EscRedirectChar(out.server, out.receiver, bytes[i]);
      assert was.net + (out.net + one.net) == was.net + out.net + one.net;
      assert was.dev + (out.dev + one.dev) == was.dev + out.dev + one.dev;
    }
  }

  lemma PrefixOfSlice(bytes: seq<byte>, from: nat, length: nat, n: nat, contents: seq<byte>)
    requires from + length <= |bytes| && n <= length <= |contents| && bytes[from..from + length] == contents[..length]
    ensures bytes[from..from + n] == contents[..n]
  {
    assert bytes[from..from + n] == bytes[from..from + length][..n];
  }

  /** The table once an offer was made. */
  function WithOffer(table: OptTable, command: byte, option: byte): OptTable {
    var opt := table[option as int];
    SetOpt(table, option,
           if command == WILL then opt.(ours := opt.ours.(sent := true)) else opt.(theirs := opt.theirs.(sent := true)))
  }

  lemma SixOffers(table: OptTable)
    requires forall i :: 0 <= i < 256 ==> table[i] == Opt(OFF, OFF)
    ensures var t1 := WithOffer(table, WILL, TRANSMIT_BINARY);
            var t2 := WithOffer(t1, DO, TRANSMIT_BINARY);
            var t3 := WithOffer(t2, WILL, ECHO);
            var t4 := WithOffer(t3, WILL, SUPPRESS_GO_AHEAD);
            var t5 := WithOffer(t4, DO, SUPPRESS_GO_AHEAD);
            WithOffer(t5, DO, COM_PORT) == InitialOptions()
  {}

  lemma AddedUpToTwo(was: seq<byte>, wire: seq<byte>)
    requires 1 <= |wire| <= 2 && |was| <= CAPACITY
    ensures AddedAll(was, wire) == if |wire| == 1 then Added(was, wire[0]) else Added(Added(was, wire[0]), wire[1])
    ensures |was| + |wire| <= CAPACITY ==> AddedAll(was, wire) == was + wire
  {
    AddedOne(was, wire[0]);
    if |wire| == 2 {
      AddedAppend(was, wire[..1], wire[1..]);
      AddedOne(Added(was, wire[0]), wire[1]);
      assert wire[..1] == [wire[0]] && wire[1..] == [wire[1]] && wire == wire[..1] + wire[1..];
    } else {
      assert wire == [wire[0]];
    }
    hide AddedAll;
    if |was| + |wire| <= CAPACITY {
      AddedWithRoom(was, wire);
    }
  }

  lemma AddedFour(was: seq<byte>, a: byte, b: byte, c: byte, d: byte)
    requires |was| <= CAPACITY
    ensures AddedAll(was, [a, b, c, d]) == Added(Added(Added(Added(was, a), b), c), d)
    ensures |was| + 4 <= CAPACITY ==> AddedAll(was, [a, b, c, d]) == was + [a, b, c, d]
  {
    hide AddedAll, Added;
    assert [a, b, c, d] == [a, b] + [c, d];
    AddedAppend(was, [a, b], [c, d]);
    AddedUpToTwo(was, [a, b]);
    AddedUpToTwo(AddedAll(was, [a, b]), [c, d]);
    if |was| + 4 <= CAPACITY {
      AddedWithRoom(was, [a, b, c, d]);
    }
  }

  lemma AddedReply(was: seq<byte>, head: seq<byte>, text: seq<byte>, tail: seq<byte>)
    ensures AddedAll(AddedAll(AddedAll(was, head), text), tail) == AddedAll(was, head + text + tail)
    ensures |was| + |head + text + tail| <= CAPACITY ==>
              AddedAll(was, head + text + tail) == was + (head + text + tail)
  {
    hide AddedAll;
    AddedAppend(was, head, text);
    AddedAppend(was, head + text, tail);
    if |was| + |head + text + tail| <= CAPACITY {
      AddedWithRoom(was, head + text + tail);
    }
  }

  lemma BookOpens(book: Book, now: Redirected)
    requires Sound(book.server, book.receiver) && book == Book(now.server, now.receiver, [], [], [], true)
    requires now.net == INITIAL_OFFERS && now.dev == []
    ensures Balances(book, now)
  {
    assert INITIAL_OFFERS + [] == [] + INITIAL_OFFERS;
  }

  /** What an event makes of the course, read off the state and the bytes waiting. */
  lemma CourseHappens(c: Course, now: Redirected, event: Event)
    requires Running(c) && c.server == now.server && c.receiver == now.receiver
    requires c.net.waiting == |now.net| && c.dev.waiting == |now.dev|
    ensures var next := Extended(now, Handle(now.server, now.receiver, event));
            Happen(c, event) == c.(server := next.server, receiver := next.receiver,
                                   net := Gauge(|next.net|, c.net.from), dev := Gauge(|next.dev|, c.dev.from),
                                   events := c.events + [event])
  {
    hide Handle;
  }

  lemma BalancedIsSound(book: Book, now: Redirected)
    requires Balances(book, now)
    ensures Sound(now.server, now.receiver)
  {
    hide Replay, Sound;
  }

  /** What an intact account says. */
  lemma AccountIsKept(book: Book, now: Redirected)
    requires Balances(book, now) && book.intact
    ensures book.network + now.net == DueNetwork(book) && book.device + now.dev == DueDevice(book)
  {
    hide Replay;
  }

  /** A notification that overfills the buffer loses more than it leaves, and the account with it. */
  lemma OverfillBalances(book: Book, was: Redirected, now: Redirected)
    requires Balances(book, was) && Sound(was.server, was.receiver) && |was.net| <= CAPACITY
    requires now.server == Notify(was.server).server && now.receiver == was.receiver && now.dev == was.dev
    requires |now.net| < |Notify(was.server).wire|
    ensures var after := book.(events := book.events + [Polled], intact := false);
            && Balances(after, now)
            && (book.intact && |was.net| + |Notify(was.server).wire| > CAPACITY ==>
                  book.network + now.net != DueNetwork(after))
  {
    hide Replay, Notify, Handle;
    EventBalances(book, was, Polled);
    EventExtends(was, Polled);
    var next := Extended(was, Handle(was.server, was.receiver, Polled));
    BlockedBalances(book.(events := book.events + [Polled]), next, now);
    if book.intact {
      AccountIsKept(book.(events := book.events + [Polled]), next);
      assert |next.net| == |was.net| + |Notify(was.server).wire| > |now.net|;
    }
  }

  lemma WritesKeepRunning(c: Course, asked: Asked, e: Events)
    requires Running(c)
    ensures var c2 := DeviceOutStep(c, asked.deviceOut, e.deviceOut);
            Running(c2) && Running(SocketOutStep(c2, asked.socketOut, e.socketOut))
  {}

  lemma {:induction false} StoppedIsStopped(c: Course, events: seq<Events>)
    requires Running(c) && (c.fate.Stops? || events == [])
    ensures Iterations.Iterations(c, events) == c
    decreases |events|
  {
    if events != [] {
      StoppedIsStopped(c, events[1..]);
    }
  }

  /** Before the first client: nothing open and the statics as they start. */
  function Unopened(platform: Platform): Course {
    var s := Server(platform, seq(256, _ => Opt(OFF, OFF)), NUL, UNOPENED, 0, 255, 0, false, true);
    var r := Receiver(Normal, Normal, [], NUL);
    Course(Drops, s, r, Gauge(0, 0), Gauge(0, 0), s, r, [], 0, 0, true)
  }

  class Redirector {
    const platform: Platform
    const toNet: RingBuffer
    const toDev: RingBuffer
    const port: SerialPort
    const tnstate: array<Opt>
    const iacCommand: array<byte>
    var iacPos: nat
    var iacEscape: Escape
    var iacSigEscape: Escape
    var rxLast: byte
    var txLast: byte
    var lineStateMask: byte
    var modemStateMask: byte
    var modemState: byte
    var breakSignaled: bool
    var inputFlow: bool
    var device: bool
    var inSocket: bool
    var outSocket: bool
    var reported: State
    ghost var book: Book

    constructor (platform: Platform)
      requires ValidPlatform(platform)
      ensures Follows(Unopened(platform))
      ensures fresh(toNet) && fresh(toDev) && fresh(port) && fresh(tnstate) && fresh(iacCommand)
      ensures fresh(toNet.bytes) && fresh(toDev.bytes)
    {
      this.platform := platform;
      toNet := new RingBuffer();
      toDev := new RingBuffer();
      port := new SerialPort(UNOPENED);
      tnstate := new Opt[256](_ => Opt(OFF, OFF));
      iacCommand := new byte[COMMAND_SIZE];
      iacPos := 0;
      iacEscape, iacSigEscape := Normal, Normal;
      rxLast, txLast := NUL, NUL;
      lineStateMask, modemStateMask, modemState := 0, 255, 0;
      breakSignaled, inputFlow := false, true;
      device, inSocket, outSocket := false, false, false;
      reported := READY;
      new;
      assert tnstate[..] == seq(256, _ => Opt(OFF, OFF));
    }

    ghost predicate Separate() {
      && ValidPlatform(platform)
      && tnstate.Length == 256 && iacCommand.Length == COMMAND_SIZE
      && toNet.bytes.Length == BUFFER_SIZE && toDev.bytes.Length == BUFFER_SIZE
      && toNet != toDev && toNet.bytes != toDev.bytes && toNet.bytes != iacCommand && toDev.bytes != iacCommand
    }

    function ServerView(): Server
      requires tnstate.Length == 256
      reads this, tnstate, port
    {
      Server(platform, tnstate[..], txLast, port.View(), lineStateMask, modemStateMask, modemState, breakSignaled,
          inputFlow)
    }

    function ReceiverView(): Receiver
      requires iacPos <= iacCommand.Length
      reads this, iacCommand
    {
      Receiver(iacEscape, iacSigEscape, iacCommand[..iacPos], rxLast)
    }

    /** Whether what we send is binary. */
    predicate SendsBinary()
      requires tnstate.Length == 256
      reads tnstate
    {
      tnstate[TRANSMIT_BINARY as int].ours.on
    }

    method EscWriteChar(c: byte)
      requires Separate() && toNet.Valid()
      modifies this`txLast, toNet`wrPos, toNet.bytes
      ensures toNet.Valid()
      ensures var wire := EscWrite(SendsBinary(), old(txLast), c);
              && toNet.Contents() == AddedAll(old(toNet.Contents()), wire)
              && (old(toNet.BufferHasRoomFor(|wire|)) ==> toNet.Contents() == old(toNet.Contents()) + wire)
      ensures txLast == c
    {
      hide RingBuffer.Contents, RingBuffer.BufferLength;
      ghost var was := toNet.Contents();
      ghost var wire := EscWrite(SendsBinary(), txLast, c);
      AddedUpToTwo(was, wire);
      if c == IAC {
        toNet.AddToBuffer(c);
      } else if c != LF && !SendsBinary() && txLast == CR {
        toNet.AddToBuffer(NUL);
      }
      toNet.AddToBuffer(c);
      txLast := c;
    }

    method SendTelnetOption(command: byte, option: byte)
      requires toNet.Valid() && toNet.BufferHasRoomFor(OPTION_BYTES)
      modifies toNet`wrPos, toNet.bytes
      ensures toNet.Valid() && toNet.Contents() == old(toNet.Contents()) + [IAC, command, option]
    {
      toNet.AddToBuffer(IAC);
      toNet.AddToBuffer(command);
      toNet.AddToBuffer(option);
    }

    method SendStr(text: seq<byte>)
      requires Separate() && toNet.Valid() && toNet.BufferHasRoomFor(2 * |text|)
      modifies this`txLast, toNet`wrPos, toNet.bytes
      ensures toNet.Valid()
      ensures toNet.Contents() == old(toNet.Contents()) + EscWriteAll(SendsBinary(), old(txLast), text)
      ensures txLast == LastOf(old(txLast), text)
    {
      hide EscWriteAll, EscWrite, RingBuffer.Contents, RingBuffer.BufferLength, SendsBinary;
      ghost var binary, last, was := SendsBinary(), txLast, toNet.Contents();
      NothingEscaped(binary, last, text);
      var i := 0;
      while i < |text|
        invariant i <= |text| && toNet.Valid() && toNet.BufferHasRoomFor(2 * (|text| - i))
        invariant SendsBinary() == binary
        invariant toNet.Contents() == was + EscWriteAll(binary, last, text[..i])
        invariant txLast == LastOf(last, text[..i])
      {
        EscWriteNext(binary, last, text, i);
        EscWriteChar(text[i]);
        i := i + 1;
      }
      assert text[..|text|] == text;
    }

    method BeginReply(code: byte)
      requires toNet.Valid()
      modifies toNet`wrPos, toNet.bytes
      ensures toNet.Valid() && toNet.Contents() == AddedAll(old(toNet.Contents()), [IAC, SB, COM_PORT, code])
      ensures old(toNet.BufferHasRoomFor(4)) ==>
                toNet.Contents() == old(toNet.Contents()) + [IAC, SB, COM_PORT, code]
    {
      hide RingBuffer.Contents, RingBuffer.BufferLength;
      AddedFour(toNet.Contents(), IAC, SB, COM_PORT, code);
      toNet.AddToBuffer(IAC);
      toNet.AddToBuffer(SB);
      toNet.AddToBuffer(COM_PORT);
      toNet.AddToBuffer(code);
    }

    method EndReply()
      requires toNet.Valid()
      modifies toNet`wrPos, toNet.bytes
      ensures toNet.Valid() && toNet.Contents() == AddedAll(old(toNet.Contents()), [IAC, SE])
      ensures old(toNet.BufferHasRoomFor(2)) ==> toNet.Contents() == old(toNet.Contents()) + [IAC, SE]
    {
      hide RingBuffer.Contents, RingBuffer.BufferLength;
      AddedUpToTwo(toNet.Contents(), [IAC, SE]);
      toNet.AddToBuffer(IAC);
      toNet.AddToBuffer(SE);
    }

    method SendSignature(signature: seq<byte>)
      requires Separate() && toNet.Valid() && toNet.BufferHasRoomFor(6 + 2 * |signature|)
      modifies this`txLast, toNet`wrPos, toNet.bytes
      ensures toNet.Valid()
      ensures Did(ServerView(), toNet.Contents())
           == After(old(toNet.Contents()), SendReply(old(ServerView()), 100 + SIGNATURE, signature))
    {
      hide EscWriteAll, RingBuffer.Contents, RingBuffer.BufferLength, LastOf;
      BeginReply(100 + SIGNATURE);
      SendStr(signature);
      EndReply();
    }

    /** With room for the reply it is appended; without, past the assertion, it takes what waited with it. */
    method SendCPCByteCommand(command: byte, parameter: byte)
      requires Separate() && toNet.Valid()
      modifies this`txLast, toNet`wrPos, toNet.bytes
      ensures toNet.Valid()
      ensures var did := SendReply(old(ServerView()), command, [parameter]);
              && ServerView() == did.server && toNet.Contents() == AddedAll(old(toNet.Contents()), did.wire)
              && (old(toNet.BufferHasRoomFor(|did.wire|)) ==>
                    Did(ServerView(), toNet.Contents()) == After(old(toNet.Contents()), did))
    {
      hide EscWriteAll, EscWrite, RingBuffer.Contents, RingBuffer.BufferLength, AddedAll;
      ghost var was, text := toNet.Contents(), EscWrite(SendsBinary(), txLast, parameter);
      EscapedByte(SendsBinary(), txLast, parameter);
      AddedReply(was, [IAC, SB, COM_PORT, command], text, [IAC, SE]);
      BeginReply(command);
      EscWriteChar(parameter);
      EndReply();
    }

    /** The speed in network order, padded to a long. */
    method SendBaudRate(rate: nat)
      requires Separate() && toNet.Valid() && rate < 0x1_0000_0000
      requires toNet.BufferHasRoomFor(BaudRateBytes(platform.longSize))
      modifies this`txLast, toNet`wrPos, toNet.bytes
      ensures toNet.Valid()
      ensures Did(ServerView(), toNet.Contents()) == After(old(toNet.Contents()), Say(old(ServerView()),
          SpeedReply(rate)))
    {
      hide EscWriteAll, RingBuffer.Contents, RingBuffer.BufferLength, LastOf, SpeedBytes;
      var bytes := SpeedBytes(rate, platform.longSize);
      BeginReply(100 + SET_BAUDRATE);
      SendStr(bytes);
      EndReply();
    }

    method HandleBaudRate(rate: nat)
      requires Separate() && toNet.Valid() && toNet.BufferHasRoomFor(HANDLE_BYTES)
      modifies this`txLast, port, toNet`wrPos, toNet.bytes
      ensures toNet.Valid()
      ensures var s := old(ServerView());
              var s' := if rate == 0 then s else s.(port := s.port.(termios := WithSpeed(s.port.termios, rate)));
              Did(ServerView(), toNet.Contents())
                == After(old(toNet.Contents()), Say(s', SpeedReply(SpeedOf(s'.port.termios))))
    {
      hide Say, WithSpeed, RingBuffer.Contents, RingBuffer.BufferLength, SpeedOf;
      if rate != 0 {
        port.SetPortSpeed(rate);
      }
      var speed := SpeedOf(port.termios);
      SendBaudRate(speed);
    }

    method HandleDataSize(value: byte)
      requires Separate() && toNet.Valid() && toNet.BufferHasRoomFor(HANDLE_BYTES)
      modifies this`txLast, port, toNet`wrPos, toNet.bytes
      ensures toNet.Valid()
      ensures var s := old(ServerView());
              var s' := if value == 0 then s else s.(port := s.port.(termios := WithDataSize(s.port.termios, value)));
              Did(ServerView(), toNet.Contents())
                == After(old(toNet.Contents()), SendReply(s', 100 + SET_DATASIZE, [DataSizeOf(s'.port.termios)]))
    {
      hide EscWriteAll, WithDataSize, RingBuffer.Contents, RingBuffer.BufferLength;
      if value != 0 {
        port.SetPortDataSize(value);
      }
      SendCPCByteCommand(100 + SET_DATASIZE, DataSizeOf(port.termios));
    }

    method HandleParity(value: byte)
      requires Separate() && toNet.Valid() && toNet.BufferHasRoomFor(HANDLE_BYTES)
      modifies this`txLast, port, toNet`wrPos, toNet.bytes
      ensures toNet.Valid()
      ensures var s := old(ServerView());
              var s' := if value == 0 then s else s.(port := s.port.(termios := WithParity(s.port.termios, value)));
              Did(ServerView(), toNet.Contents())
                == After(old(toNet.Contents()), SendReply(s', 100 + SET_PARITY, [ParityOf(s'.port.termios)]))
    {
      hide EscWriteAll, WithParity, ParityOf, RingBuffer.Contents, RingBuffer.BufferLength;
      if value != 0 {
        port.SetPortParity(value);
      }
      SendCPCByteCommand(100 + SET_PARITY, ParityOf(port.termios));
    }

    method HandleStopSize(value: byte)
      requires Separate() && toNet.Valid() && toNet.BufferHasRoomFor(HANDLE_BYTES)
      modifies this`txLast, port, toNet`wrPos, toNet.bytes
      ensures toNet.Valid()
      ensures var s := old(ServerView());
              var s' := if value == 0 then s else s.(port := s.port.(termios := WithStopSize(s.port.termios, value)));
              Did(ServerView(), toNet.Contents())
                == After(old(toNet.Contents()), SendReply(s', 100 + SET_STOPSIZE, [StopSizeOf(s'.port.termios)]))
    {
      hide EscWriteAll, WithStopSize, StopSizeOf, RingBuffer.Contents, RingBuffer.BufferLength;
      if value != 0 {
        port.SetPortStopSize(value);
      }
      SendCPCByteCommand(100 + SET_STOPSIZE, StopSizeOf(port.termios));
    }

    method HandleControl(value: byte)
      requires Separate() && toNet.Valid() && toNet.BufferHasRoomFor(HANDLE_BYTES)
      modifies this`txLast, this`breakSignaled, port, toNet`wrPos, toNet.bytes
      ensures toNet.Valid()
      ensures var (s', reply) := PerformControl(old(ServerView()), value);
              Did(ServerView(), toNet.Contents()) == After(old(toNet.Contents()), Say(s', reply))
    {
      hide EscWriteAll, WithFlowControl, FlowControlOf, RingBuffer.Contents, RingBuffer.BufferLength;
      var code := 100 + SET_CONTROL;
      if value == FLOW_REQ || value == DTR_REQ || value == RTS_REQ || value == INFLOW_REQ {
        SendCPCByteCommand(code, FlowControlOf(port.View(), value));
      } else if value == BREAK_REQ {
        if breakSignaled {
          SendCPCByteCommand(code, BREAK_ON);
        } else {
          SendCPCByteCommand(code, BREAK_OFF);
        }
      } else if value == BREAK_ON || value == BREAK_OFF {
        breakSignaled := value == BREAK_ON;
        SendCPCByteCommand(code, value);
      } else {
        port.SetPortFlowControl(value);
        SendCPCByteCommand(code, FlowControlOf(port.View(), FLOW_REQ));
      }
    }

    method HandleCPCCommand(command: seq<byte>)
      requires Separate() && toNet.Valid() && toNet.BufferHasRoomFor(HANDLE_BYTES)
      requires Dispatchable(command) && command[1] == SB
      modifies this`txLast, this`breakSignaled, this`inputFlow, this`lineStateMask, this`modemStateMask
      modifies port, toNet`wrPos, toNet.bytes
      ensures toNet.Valid()
      ensures Did(ServerView(), toNet.Contents())
           == After(old(toNet.Contents()), Telnet.HandleCPCCommand(old(ServerView()), command))
    {
      hide EscWriteAll, PerformControl, WithSpeed, WithDataSize, WithParity, WithStopSize, SpeedOf, DataSizeOf,
          ParityOf;
      hide StopSizeOf, RateOf, AndBytes, RingBuffer.Contents, RingBuffer.BufferLength, SendReply, AddedAll, LastOf;
      var kind := command[3];
      if kind == SIGNATURE {
        if |command| == 6 {
          SendSignature(platform.signature);
        }
      } else if kind == FLOWCONTROL_SUSPEND {
        inputFlow := false;
      } else if kind == FLOWCONTROL_RESUME {
        inputFlow := true;
      } else if kind == SET_BAUDRATE {
        HandleBaudRate(RateOf(command[4..8]));
      } else if kind == SET_DATASIZE {
        HandleDataSize(command[4]);
      } else if kind == SET_PARITY {
        HandleParity(command[4]);
      } else if kind == SET_STOPSIZE {
        HandleStopSize(command[4]);
      } else if kind == SET_CONTROL {
        HandleControl(command[4]);
      } else if kind == SET_LINESTATE_MASK {
        lineStateMask := AndBytes(command[4], 16);
        SendCPCByteCommand(100 + SET_LINESTATE_MASK, lineStateMask);
      } else if kind == SET_MODEMSTATE_MASK {
        modemStateMask := command[4];
        SendCPCByteCommand(100 + SET_MODEMSTATE_MASK, modemStateMask);
      } else if kind == PURGE_DATA {
        SendCPCByteCommand(100 + PURGE_DATA, command[4]);
      }
    }

    method HandleIACCommand(command: seq<byte>)
      requires Separate() && toNet.Valid() && toNet.BufferHasRoomFor(HANDLE_BYTES)
      requires Dispatchable(command)
      modifies this`txLast, this`breakSignaled, this`inputFlow, this`lineStateMask, this`modemStateMask
      modifies port, tnstate, toNet`wrPos, toNet.bytes
      ensures toNet.Valid()
      ensures Did(ServerView(), toNet.Contents())
           == After(old(toNet.Contents()), Telnet.HandleIACCommand(old(ServerView()), command))
    {
      hide Telnet.HandleCPCCommand, RingBuffer.Contents, RingBuffer.BufferLength, Negotiate, Supported;
      var verb, option := command[1], command[2];
      var opt := tnstate[option as int];
      if verb == SB {
        if (opt.ours.on || opt.theirs.on) && option == COM_PORT {
          HandleCPCCommand(command);
        }
      } else if IsOptionVerb(verb) {
        HandleOption(verb, option);
      }
    }

    /** The source's cases for WILL, DO, DONT and WONT. */
    method HandleOption(verb: byte, option: byte)
      requires Separate() && toNet.Valid() && toNet.BufferHasRoomFor(OPTION_BYTES) && IsOptionVerb(verb)
      modifies tnstate, toNet`wrPos, toNet.bytes
      ensures toNet.Valid()
      ensures var (opt, reply) := Negotiate(old(tnstate[option as int]), verb, Supported(option));
              && tnstate[..] == old(tnstate[..])[option as int := opt]
              && toNet.Contents() == old(toNet.Contents()) + if reply.Some? then [IAC, reply.value, option] else []
    {
      hide RingBuffer.Contents, RingBuffer.BufferLength;
      var i := option as int;
      var opt := tnstate[i];
      if verb == WILL {
        if !Supported(option) {
          SendTelnetOption(DONT, option);
        } else if !opt.theirs.sent {
          SendTelnetOption(DO, option);
        }
        tnstate[i] := opt.(theirs := Half(false, Supported(option)));
      } else if verb == DO {
        if !Supported(option) {
          SendTelnetOption(WONT, option);
        } else if !opt.ours.sent {
          SendTelnetOption(WILL, option);
        }
        tnstate[i] := opt.(ours := Half(false, Supported(option)));
      } else if verb == DONT {
        if opt.ours.on {
          SendTelnetOption(WONT, option);
        }
        tnstate[i] := opt.(ours := OFF);
      } else {
        if opt.theirs.on {
          SendTelnetOption(DONT, option);
        }
        tnstate[i] := opt.(theirs := OFF);
      }
    }

    ghost predicate Valid()
      reads this, iacCommand
    {
      Separate() && iacPos <= COMMAND_SIZE && ValidReceiver(ReceiverView())
    }

    method Append(c: byte)
      requires Separate() && iacPos < COMMAND_SIZE
      modifies this`iacPos, iacCommand
      ensures iacPos == old(iacPos) + 1 && iacCommand[..iacPos] == old(iacCommand[..iacPos]) + [c]
    {
      iacCommand[iacPos] := c;
      iacPos := iacPos + 1;
    }

    /** Drops the byte when the command buffer is full. */
    method AppendIfRoom(c: byte)
      requires Separate() && iacPos <= COMMAND_SIZE
      modifies this`iacPos, iacCommand
      ensures iacPos <= COMMAND_SIZE && iacCommand[..iacPos] == Appended(old(iacCommand[..iacPos]), c)
    {
      if iacPos < COMMAND_SIZE {
        Append(c);
      }
    }

    /** Inside a signature, which needs its own unescaping. */
    method ReceiveSignatureChar(c: byte) returns (complete: bool)
      requires Valid() && iacEscape == Receiving && iacPos >= 4 && iacCommand[1] == SB && iacCommand[3] == SIGNATURE
      modifies this`iacEscape, this`iacSigEscape, this`iacPos, this`rxLast, iacCommand
      ensures Separate() && iacPos <= COMMAND_SIZE
      ensures var step := ReceiveSignature(old(ReceiverView()), c);
              && ReceiverView() == step.receiver && step.data == []
              && step.command == if complete then Some(iacCommand[..iacPos]) else None
    {
      complete := false;
      if iacSigEscape == Normal {
        if c == IAC {
          iacSigEscape := Received;
        } else {
          AppendIfRoom(c);
        }
      } else if c == IAC {
        AppendIfRoom(c);
        iacSigEscape := Normal;
      } else {
        AppendIfRoom(IAC);
        AppendIfRoom(c);
        complete, iacEscape := true, Normal;
      }
      rxLast := c;
    }

    /** Inside any other command. */
    method ReceiveCommandChar(c: byte) returns (complete: bool)
      requires Valid() && iacEscape == Receiving && !IsSignature(iacCommand[..iacPos])
      modifies this`iacEscape, this`iacPos, this`rxLast, iacCommand
      ensures Separate() && iacPos <= COMMAND_SIZE
      ensures var step := Receive(old(ReceiverView()), false, c);
              && ReceiverView() == step.receiver && step.data == []
              && step.command == if complete then Some(iacCommand[..iacPos]) else None
    {
      var head := iacPos < 4;
      Append(c);
      if iacCommand[1] != SB {
        complete := iacPos == 3;
      } else {
        complete := !head && iacPos == CompleteSize(iacCommand[3]);
      }
      if complete {
        iacEscape := Normal;
      }
      rxLast := c;
    }

    /** The state, and the bytes waiting in either direction. */
    ghost function Now(): Redirected
      requires Separate() && iacPos <= COMMAND_SIZE && toNet.Valid() && toDev.Valid()
      reads this, iacCommand, port, tnstate, toNet, toNet.bytes, toDev, toDev.bytes
    {
      Redirected(ServerView(), ReceiverView(), toNet.Contents(), toDev.Contents(), [])
    }

    /** Outside a command, or at its first byte. */
    method ReceivePlainChar(c: byte)
      requires Valid() && iacEscape != Receiving && toDev.Valid() && toDev.BufferHasRoomFor(1)
      modifies this`iacEscape, this`iacSigEscape, this`iacPos, this`rxLast, iacCommand, toDev`wrPos, toDev.bytes
      ensures Separate() && iacPos <= COMMAND_SIZE && toDev.Valid()
      ensures var step := Receive(old(ReceiverView()), tnstate[TRANSMIT_BINARY as int].theirs.on, c);
              && ReceiverView() == step.receiver && step.command.None?
              && toDev.Contents() == old(toDev.Contents()) + step.data
    {
      hide RingBuffer.Contents, RingBuffer.BufferLength;
      if iacEscape == Normal {
        if c == IAC {
          iacEscape := Received;
        } else if tnstate[TRANSMIT_BINARY as int].theirs.on || c != NUL || rxLast != CR {
          toDev.AddToBuffer(c);
        }
      } else if c == IAC {
        toDev.AddToBuffer(c);
        iacEscape := Normal;
      } else {
        iacCommand[0] := IAC;
        iacCommand[1] := c;
        iacPos := 2;
        iacEscape, iacSigEscape := Receiving, Normal;
      }
      rxLast := c;
    }

    method ReceiveChar(c: byte) returns (complete: bool)
      requires Valid() && toDev.Valid() && toDev.BufferHasRoomFor(1)
      modifies this`iacEscape, this`iacSigEscape, this`iacPos, this`rxLast, iacCommand, toDev`wrPos, toDev.bytes
      ensures Separate() && iacPos <= COMMAND_SIZE && toDev.Valid()
      ensures var step := Receive(old(ReceiverView()), tnstate[TRANSMIT_BINARY as int].theirs.on, c);
              && ReceiverView() == step.receiver
              && step.command == (if complete then Some(iacCommand[..iacPos]) else None)
              && toDev.Contents() == old(toDev.Contents()) + step.data
    {
      hide RingBuffer.Contents, RingBuffer.BufferLength, ReceiveSignature;
      if iacEscape != Receiving {
        ReceivePlainChar(c);
        complete := false;
      } else if iacPos >= 4 && iacCommand[1] == SB && iacCommand[3] == SIGNATURE {
        complete := ReceiveSignatureChar(c);
      } else {
        complete := ReceiveCommandChar(c);
      }
    }

    method EscRedirectChar(c: byte)
      requires Valid() && toNet.Valid() && toNet.BufferHasRoomFor(HANDLE_BYTES)
      requires toDev.Valid() && toDev.BufferHasRoomFor(1)
      modifies this`iacEscape, this`iacSigEscape, this`iacPos, this`rxLast, iacCommand
      modifies this`txLast, this`breakSignaled, this`inputFlow, this`lineStateMask, this`modemStateMask
      modifies port, tnstate, toNet`wrPos, toNet.bytes, toDev`wrPos, toDev.bytes
      ensures Valid() && toNet.Valid() && toDev.Valid()
      ensures Now() == Extended(old(Now()), TelnetStreams.EscRedirectChar(old(ServerView()), old(ReceiverView()), c))
    {
      hide RingBuffer.Contents, RingBuffer.BufferLength, Receive, Telnet.HandleIACCommand, Dispatchable;
      hide TelnetStreams.EscRedirectChar;
      ghost var s, r := ServerView(), ReceiverView();
      RedirectedIs(s, r, c);
      var complete := ReceiveChar(c);
      assert ServerView() == s;
      if complete {
        HandleIACCommand(iacCommand[..iacPos]);
      }
    }

    // ---------- Connection states ----------

    ghost predicate Connected()
      reads this, iacCommand, port, tnstate, toNet, toNet.bytes, toDev, toDev.bytes
    {
      && device && inSocket && outSocket && reported == PORT_OPENED
      && Valid() && toNet.Valid() && toDev.Valid()
      && book.server.options == InitialOptions() && Balances(book, Now())
    }

    ghost predicate Disconnected()
      reads this, iacCommand
    {
      !device && !inSocket && !outSocket && reported == READY && Valid()
    }

    /** The open connection as the functions on values see it. */
    ghost function CourseNow(): Course
      requires Separate() && iacPos <= COMMAND_SIZE && toNet.Valid() && toDev.Valid()
      reads this, iacCommand, port, tnstate, toNet, toNet.bytes, toDev, toDev.bytes
    {
      Course(Stays, ServerView(), ReceiverView(), toNet.Level(), toDev.Level(),
             book.server, book.receiver, book.events, |book.network|, |book.device|, book.intact)
    }

    /**
     * The program is where this course says: everything open, PORT_OPENED reported last and the account balanced,
     * or nothing open and READY reported last; or it has stopped.
     */
    ghost predicate Follows(c: Course)
      reads this, iacCommand, port, tnstate, toNet, toNet.bytes, toDev, toDev.bytes
    {
      match c.fate
      case Stays => Connected() && CourseNow() == c
      case Drops => Disconnected() && ServerView() == c.server && ReceiverView() == c.receiver
      case Stops => true
    }

    method Drop()
      requires Valid()
      modifies this`device, this`inSocket, this`outSocket, this`reported
      ensures Disconnected() && ServerView() == old(ServerView()) && ReceiverView() == old(ReceiverView())
    {
      reported := READY;
      device, inSocket, outSocket := false, false, false;
    }

    // ---------- The phases of an iteration ----------

    /** Enters in the account an event whose output has been appended to what waited. */
    ghost method Record(c: Course, was: Redirected, event: Event)
      requires device && inSocket && outSocket && reported == PORT_OPENED
      requires Valid() && toNet.Valid() && toDev.Valid()
      requires Balances(book, was) && book.server.options == InitialOptions()
      requires c == Course(Stays, was.server, was.receiver,
                           Gauge(|was.net|, toNet.rdPos), Gauge(|was.dev|, toDev.rdPos),
                           book.server, book.receiver, book.events, |book.network|, |book.device|, book.intact)
      requires Running(c) && Now() == Extended(was, Handle(was.server, was.receiver, event))
      modifies this`book
      ensures Follows(Happen(c, event))
      ensures book == old(book).(events := old(book.events) + [event])
    {
      hide RingBuffer.Contents, RingBuffer.BufferLength, ValidReceiver, Balances, Handle, Extended, Happen;
      EventBalances(book, was, event);
      CourseHappens(c, was, event);
      book := book.(events := book.events + [event]);
    }

    /** Enters a poll whose notification has taken what waited with it. */
    ghost method RecordOverfill(c: Course, was: Redirected)
      requires device && inSocket && outSocket && reported == PORT_OPENED
      requires Valid() && toNet.Valid() && toDev.Valid()
      requires Balances(book, was) && book.server.options == InitialOptions()
      requires c == Course(Stays, was.server, was.receiver,
                           Gauge(|was.net|, toNet.rdPos), Gauge(|was.dev|, toDev.rdPos),
                           book.server, book.receiver, book.events, |book.network|, |book.device|, book.intact)
      requires Running(c) && |was.net| <= CAPACITY < |was.net| + |Notify(was.server).wire|
      requires var wire := Notify(was.server).wire;
               Now() == Redirected(Notify(was.server).server, was.receiver, wire[CAPACITY - |was.net| + 1..],
                                   was.dev, [])
      modifies this`book
      ensures Follows(Overfill(c))
      ensures old(book.intact) ==> book.network + toNet.Contents() != DueNetwork(book)
    {
      hide RingBuffer.Contents, RingBuffer.BufferLength, ValidReceiver, Balances, Handle, Extended, Happen, Notify;
      EventExtends(was, Polled);
      CourseHappens(c, was, Polled);
      OverfillBalances(book, was, Now());
      book := book.(events := book.events + [Polled], intact := false);
    }

    method ForwardAll(readbuf: seq<byte>)
      requires Connected() && toNet.BufferHasRoomFor(2 * |readbuf|)
      modifies this`txLast, this`book, toNet`wrPos, toNet.bytes
      ensures Follows(Happen(old(CourseNow()), FromDevice(readbuf)))
    {
      hide RingBuffer.Contents, RingBuffer.BufferLength, Balances, EscWriteAll, LastOf, Handle, Extended, Happen,
           ValidReceiver;
      BalancedIsSound(book, Now());
      EventExtends(Now(), FromDevice(readbuf));
      ghost var c, was := CourseNow(), Now();
      SendStr(readbuf);
      Record(c, was, FromDevice(readbuf));
    }

    /**
     * Serial input: every byte may become two. A blocked read leaves a loop over nothing, or, where ssize_t is
     * narrow, one that runs past the read buffer until the program stops.
     */
    method DeviceIn(outcome: Read) returns (fate: Fate)
      requires Connected()
      modifies this`device, this`inSocket, this`outSocket, this`reported
      modifies this`txLast, this`book, toNet`wrPos, toNet.bytes
      ensures var next := DeviceInStep(old(CourseNow()), true, Some(outcome)); fate == next.fate && Follows(next)
    {
      hide RingBuffer.Contents, RingBuffer.BufferLength, Balances, ValidReceiver, Happen;
      hide ReceiverView, Now;
      var trybytes := Min(READ_SIZE, toNet.BufferRoomLeft() / ESC_WRITE_BYTES);
      fate := Stays;
      if outcome.ReadBlocks? {
        if Narrow(platform) {
          fate := Stops;
        }
      } else if Fails(outcome, trybytes) {
        Drop();
        fate := Drops;
      } else {
        ForwardAll(Taken(outcome, trybytes));
      }
    }

    /** Takes what was written out of the buffer. */
    method DeviceTook(iobytes: nat)
      requires Connected() && iobytes <= |toDev.Contents()| && toDev.rdPos + iobytes <= BUFFER_SIZE
      requires toDev.bytes[toDev.rdPos..toDev.rdPos + iobytes] == toDev.Contents()[..iobytes]
      modifies this`book, toDev`rdPos
      ensures var c := old(CourseNow());
              Follows(c.(dev := c.dev.Minus(iobytes), toDevice := c.toDevice + iobytes))
      ensures book == old(book).(device := old(book.device + toDev.bytes[toDev.rdPos..toDev.rdPos + iobytes]))
      ensures book.intact ==> book.device + toDev.Contents() == DueDevice(book)
    {
      hide RingBuffer.Contents, RingBuffer.BufferLength, ValidReceiver, Balances, DueDevice, DueNetwork;
      DeviceAcceptBalances(book, Now(), iobytes);
      book := book.(device := book.device + toDev.Contents()[..iobytes]);
      toDev.BufferPopBytes(iobytes);
      if book.intact {
        AccountIsKept(book, Now());
      }
    }

    /** The write result of a blocked write, minus one, is used as a length all the same. */
    method DeviceBlocked()
      requires Connected()
      modifies this`book, toDev`rdPos
      ensures var c := old(CourseNow()); Follows(c.(dev := c.dev.Unwritten(), intact := false))
      ensures book == old(book).(intact := false)
      ensures Shifted(old(toDev.Contents()), toDev.Contents(), CAPACITY)
      ensures old(book.intact) ==> book.device + toDev.Contents() != DueDevice(book)
    {
      hide RingBuffer.Contents, RingBuffer.BufferLength, ValidReceiver, Replay, Sound, INITIAL_OFFERS;
      ghost var was := Now();
      toDev.BufferPopBytes(MINUS_ONE);
      BlockedBalances(book, was, Now());
      book := book.(intact := false);
    }

    /** Serial output. Only a blocked write breaks the account of the connection. */
    method DeviceOut(outcome: Write) returns (fate: Fate)
      requires Connected()
      modifies this`device, this`inSocket, this`outSocket, this`reported, this`book, toDev`rdPos
      ensures var next := DeviceOutStep(old(CourseNow()), true, Some(outcome)); fate == next.fate && Follows(next)
      ensures fate.Stays? && outcome.Accepts? ==>
                var iobytes := Min(outcome.n, old(toDev.Level()).Contiguous());
                iobytes <= |old(toDev.Contents())|
                && book == old(book).(device := old(book.device) + old(toDev.Contents())[..iobytes])
      ensures fate.Stays? && old(book.intact) ==>
                (outcome.WriteBlocks? <==> book.device + toDev.Contents() != DueDevice(book))
    {
      hide RingBuffer.Contents, RingBuffer.BufferLength, ValidReceiver, Balances, DueDevice, DueNetwork;
      hide ServerView, ReceiverView, Now;
      fate := Stays;
      var trybytes := toDev.GetBufferString();
      match outcome
      case WriteFails =>
        Drop();
        fate := Drops;
      case WriteBlocks =>
        DeviceBlocked();
      case Accepts(n) =>
        var iobytes := Min(n, trybytes);
        if iobytes == 0 {
          Drop();
          fate := Drops;
        } else {
          PrefixOfSlice(toDev.bytes[..], toDev.rdPos, trybytes, iobytes, toDev.Contents());
          DeviceTook(iobytes);
        }
    }

    /** Takes what was written out of the buffer. */
    method NetworkTook(iobytes: nat)
      requires Connected() && iobytes <= |toNet.Contents()| && toNet.rdPos + iobytes <= BUFFER_SIZE
      requires toNet.bytes[toNet.rdPos..toNet.rdPos + iobytes] == toNet.Contents()[..iobytes]
      modifies this`book, toNet`rdPos
      ensures var c := old(CourseNow());
              Follows(c.(net := c.net.Minus(iobytes), toNetwork := c.toNetwork + iobytes))
      ensures book == old(book).(network := old(book.network + toNet.bytes[toNet.rdPos..toNet.rdPos + iobytes]))
      ensures book.intact ==> book.network + toNet.Contents() == DueNetwork(book)
    {
      hide RingBuffer.Contents, RingBuffer.BufferLength, ValidReceiver, Balances, DueDevice, DueNetwork;
      NetworkAcceptBalances(book, Now(), iobytes);
      book := book.(network := book.network + toNet.Contents()[..iobytes]);
      toNet.BufferPopBytes(iobytes);
      if book.intact {
        AccountIsKept(book, Now());
      }
    }

    /** The write result of a blocked write, minus one, is used as a length all the same. */
    method NetworkBlocked()
      requires Connected()
      modifies this`book, toNet`rdPos
      ensures var c := old(CourseNow()); Follows(c.(net := c.net.Unwritten(), intact := false))
      ensures book == old(book).(intact := false)
      ensures Shifted(old(toNet.Contents()), toNet.Contents(), CAPACITY)
      ensures old(book.intact) ==> book.network + toNet.Contents() != DueNetwork(book)
    {
      hide RingBuffer.Contents, RingBuffer.BufferLength, ValidReceiver, Replay, Sound, INITIAL_OFFERS;
      ghost var was := Now();
      toNet.BufferPopBytes(MINUS_ONE);
      BlockedBalances(book, was, Now());
      book := book.(intact := false);
    }

    /** Network output. Only a blocked write breaks the account of the connection. */
    method SocketOut(outcome: Write) returns (fate: Fate)
      requires Connected()
      modifies this`device, this`inSocket, this`outSocket, this`reported, this`book, toNet`rdPos
      ensures var next := SocketOutStep(old(CourseNow()), true, Some(outcome)); fate == next.fate && Follows(next)
      ensures fate.Stays? && outcome.Accepts? ==>
                var iobytes := Min(outcome.n, old(toNet.Level()).Contiguous());
                iobytes <= |old(toNet.Contents())|
                && book == old(book).(network := old(book.network) + old(toNet.Contents())[..iobytes])
      ensures fate.Stays? && old(book.intact) ==>
                (outcome.WriteBlocks? <==> book.network + toNet.Contents() != DueNetwork(book))
    {
      hide RingBuffer.Contents, RingBuffer.BufferLength, ValidReceiver, Balances, DueDevice, DueNetwork;
      hide ServerView, ReceiverView, Now;
      fate := Stays;
      var trybytes := toNet.GetBufferString();
      match outcome
      case WriteFails =>
        Drop();
        fate := Drops;
      case WriteBlocks =>
        NetworkBlocked();
      case Accepts(n) =>
        var iobytes := Min(n, trybytes);
        if iobytes == 0 {
          Drop();
          fate := Drops;
        } else {
          PrefixOfSlice(toNet.bytes[..], toNet.rdPos, trybytes, iobytes, toNet.Contents());
          NetworkTook(iobytes);
        }
    }

    method RedirectChars(readbuf: seq<byte>)
      requires Valid() && toNet.Valid() && toDev.Valid()
      requires toNet.BufferHasRoomFor(HANDLE_BYTES * |readbuf|) && toDev.BufferHasRoomFor(|readbuf|)
      modifies this`iacEscape, this`iacSigEscape, this`iacPos, this`rxLast, iacCommand
      modifies this`txLast, this`breakSignaled, this`inputFlow, this`lineStateMask, this`modemStateMask
      modifies port, tnstate, toNet`wrPos, toNet.bytes, toDev`wrPos, toDev.bytes
      ensures Valid() && toNet.Valid() && toDev.Valid()
      ensures Now() == Extended(old(Now()), RedirectAll(old(ServerView()), old(ReceiverView()), readbuf))
    {
      hide RingBuffer.Contents, RingBuffer.BufferLength, ValidReceiver, Balances, RedirectAll,
          TelnetStreams.EscRedirectChar;
      ghost var was := Now();
      RedirectedSoFar(was, readbuf, 0);
      var i := 0;
      while i < |readbuf|
        invariant i <= |readbuf| && Valid() && toNet.Valid() && toDev.Valid()
        invariant toNet.BufferHasRoomFor(HANDLE_BYTES * (|readbuf| - i)) && toDev.BufferHasRoomFor(|readbuf| - i)
        invariant Now() == Extended(was, RedirectAll(was.server, was.receiver, readbuf[..i]))
      {
        RedirectedSoFar(was, readbuf, i);
        RedirectingFitsBudget(ServerView(), ReceiverView(), readbuf[i]);
        EscRedirectChar(readbuf[i]);
        i := i + 1;
      }
      assert readbuf[..|readbuf|] == readbuf;
    }

    method RedirectRead(readbuf: seq<byte>)
      requires Connected()
      requires toNet.BufferHasRoomFor(HANDLE_BYTES * |readbuf|) && toDev.BufferHasRoomFor(|readbuf|)
      modifies this`iacEscape, this`iacSigEscape, this`iacPos, this`rxLast, iacCommand
      modifies this`txLast, this`breakSignaled, this`inputFlow, this`lineStateMask, this`modemStateMask
      modifies this`book, port, tnstate, toNet`wrPos, toNet.bytes, toDev`wrPos, toDev.bytes
      ensures Follows(Happen(old(CourseNow()), FromNet(readbuf)))
    {
      hide RingBuffer.Contents, RingBuffer.BufferLength, ValidReceiver, Balances, RedirectAll, Handle, Extended, Happen;
      BalancedIsSound(book, Now());
      EventExtends(Now(), FromNet(readbuf));
      ghost var c, was := CourseNow(), Now();
      RedirectChars(readbuf);
      Record(c, was, FromNet(readbuf));
    }

    /** Network input: each byte may cost one towards the device and 516 towards the network. */
    method SocketIn(outcome: Read) returns (fate: Fate)
      requires Connected()
      modifies this`device, this`inSocket, this`outSocket, this`reported
      modifies this`iacEscape, this`iacSigEscape, this`iacPos, this`rxLast, iacCommand
      modifies this`txLast, this`breakSignaled, this`inputFlow, this`lineStateMask, this`modemStateMask
      modifies this`book, port, tnstate, toNet`wrPos, toNet.bytes, toDev`wrPos, toDev.bytes
      ensures var next := SocketInStep(old(CourseNow()), true, Some(outcome)); fate == next.fate && Follows(next)
    {
      hide RingBuffer.Contents, RingBuffer.BufferLength, ValidReceiver, Balances, Happen;
      var trybytes := Min(Min(READ_SIZE, toNet.BufferRoomLeft() / HANDLE_BYTES), toDev.BufferRoomLeft());
      fate := Stays;
      if outcome.ReadBlocks? {
        if Narrow(platform) {
          fate := Stops;
        }
      } else if Fails(outcome, trybytes) {
        Drop();
        fate := Drops;
      } else {
        RedirectRead(Taken(outcome, trybytes));
      }
    }

    /** If the notification does not fit, the assertion in AddToBuffer, where it is compiled in, stops the program. */
    method SendNotice() returns (aborted: bool)
      requires Valid() && toNet.Valid()
      modifies this`txLast, toNet`wrPos, toNet.bytes
      ensures toNet.Valid()
      ensures var did := SendReply(old(ServerView()), NOTIFY_MODEMSTATE, [AndBytes(modemState, modemStateMask)]);
              && (aborted <==> platform.asserts && old(toNet.BufferRoomLeft()) < |did.wire|)
              && (!aborted ==>
                    ServerView() == did.server && toNet.Contents() == AddedAll(old(toNet.Contents()), did.wire))
    {
      hide RingBuffer.Contents, RingBuffer.BufferLength, ValidReceiver, EscWriteAll, EscWrite, AndBytes;
      var parameter := AndBytes(modemState, modemStateMask);
      EscapedByte(SendsBinary(), txLast, parameter);
      aborted := platform.asserts && !toNet.BufferHasRoomFor(6 + |EscWrite(SendsBinary(), txLast, parameter)|);
      if !aborted {
        SendCPCByteCommand(NOTIFY_MODEMSTATE, parameter);
      }
    }

    method CheckModemState() returns (aborted: bool)
      requires Valid() && toNet.Valid()
      modifies this`modemState, this`txLast, toNet`wrPos, toNet.bytes
      ensures var did := Notify(old(ServerView()));
              && (aborted <==> platform.asserts && old(toNet.BufferRoomLeft()) < |did.wire|)
              && toNet.Valid()
              && (!aborted ==>
                    ServerView() == did.server && toNet.Contents() == AddedAll(old(toNet.Contents()), did.wire))
    {
      hide RingBuffer.Contents, RingBuffer.BufferLength, ValidReceiver, SendReply, AndBytes, ModemStateOf;
      aborted := false;
      var newstate := port.GetModemState(modemState);
      if AndBytes(AndBytes(newstate, modemStateMask), NO_DELTA)
          != AndBytes(AndBytes(modemState, modemStateMask), NO_DELTA) {
        modemState := newstate;
        aborted := SendNotice();
      }
    }

    method PollModem() returns (fate: Fate)
      requires Connected()
      modifies this`modemState, this`txLast, this`book, toNet`wrPos, toNet.bytes
      ensures var next := PollStep(old(CourseNow()), true); fate == next.fate && Follows(next)
      ensures old(toNet.BufferHasRoomFor(BYTE_COMMAND_BYTES)) ==> fate.Stays?
      ensures fate.Stays? && old(book.intact) ==>
                (old(toNet.BufferRoomLeft() < |Notify(ServerView()).wire|)
                 <==> book.network + toNet.Contents() != DueNetwork(book))
    {
      hide RingBuffer.Contents, RingBuffer.BufferLength, ValidReceiver, Balances, Handle, Extended, Notify, Happen;
      hide AddedAll, DueNetwork;
      NoticesAreShort(ServerView());
      BalancedIsSound(book, Now());
      EventExtends(Now(), Polled);
      ghost var c, was := CourseNow(), Now();
      ghost var wire := Notify(ServerView()).wire;
      var aborted := CheckModemState();
      fate := if aborted then Stops else Stays;
      if !aborted && |was.net| + |wire| <= CAPACITY {
        AddedWithRoom(was.net, wire);
        Record(c, was, Polled);
        if old(book.intact) {
          AccountIsKept(book, Now());
        }
      } else if !aborted {
        AddedWithoutRoom(was.net, wire);
        RecordOverfill(c, was);
      }
    }

    // ---------- A new client ----------

    method InitTelnetStateMachine()
      requires tnstate.Length == 256
      modifies tnstate
      ensures forall i :: 0 <= i < 256 ==> tnstate[i] == Opt(OFF, OFF)
    {
      var i := 0;
      while i < 256
        invariant i <= 256 && forall k :: 0 <= k < i ==> tnstate[k] == Opt(OFF, OFF)
      {
        tnstate[i] := Opt(OFF, OFF);
        i := i + 1;
      }
    }

    method Offer(command: byte, option: byte)
      requires Separate() && toNet.Valid() && toNet.BufferHasRoomFor(OPTION_BYTES)
      modifies tnstate, toNet`wrPos, toNet.bytes
      ensures toNet.Valid() && toNet.Contents() == old(toNet.Contents()) + [IAC, command, option]
      ensures tnstate[..] == WithOffer(old(tnstate[..]), command, option)
    {
      hide RingBuffer.Contents, RingBuffer.BufferLength;
      SendTelnetOption(command, option);
      var opt := tnstate[option as int];
      tnstate[option as int] :=
        if command == WILL then opt.(ours := opt.ours.(sent := true)) else opt.(theirs := opt.theirs.(sent := true));
    }

    method OfferBothWays(option: byte)
      requires Separate() && toNet.Valid() && toNet.BufferHasRoomFor(2 * OPTION_BYTES)
      modifies tnstate, toNet`wrPos, toNet.bytes
      ensures toNet.Valid()
      ensures toNet.Contents() == old(toNet.Contents()) + [IAC, WILL, option, IAC, DO, option]
      ensures tnstate[..] == WithOffer(WithOffer(old(tnstate[..]), WILL, option), DO, option)
    {
      hide RingBuffer.Contents, RingBuffer.BufferLength, WithOffer;
      Offer(WILL, option);
      Offer(DO, option);
    }

    method SendTelnetInitialOptions()
      requires Separate() && toNet.Valid() && toNet.Contents() == []
      requires forall i :: 0 <= i < 256 ==> tnstate[i] == Opt(OFF, OFF)
      modifies tnstate, toNet`wrPos, toNet.bytes
      ensures toNet.Valid() && toNet.Contents() == INITIAL_OFFERS
      ensures tnstate[..] == InitialOptions()
    {
      hide RingBuffer.Contents, RingBuffer.BufferLength, WithOffer, InitialOptions;
      SixOffers(tnstate[..]);
      OfferBothWays(TRANSMIT_BINARY);
      Offer(WILL, ECHO);
      OfferBothWays(SUPPRESS_GO_AHEAD);
      Offer(DO, COM_PORT);
    }

    /** A client is connected and has been sent our offers; the port is not open yet. */
    ghost predicate HalfOpen()
      reads this, iacCommand, tnstate, toNet, toNet.bytes
    {
      && !device && inSocket && outSocket && reported == CONNECTED
      && Valid() && toNet.Valid() && toNet.Contents() == INITIAL_OFFERS && toNet.rdPos == 0
      && tnstate[..] == InitialOptions()
    }

    /** Only the options start afresh: the parser stays where the last client left it. */
    method Accept()
      requires Disconnected()
      modifies this`inSocket, this`outSocket, this`reported, tnstate, toNet, toNet.bytes
      ensures HalfOpen()
      ensures ServerView() == old(ServerView()).(options := InitialOptions()) && ReceiverView() == old(ReceiverView())
    {
      hide ValidReceiver, RingBuffer.Contents, RingBuffer.BufferLength;
      reported := CONNECTED;
      inSocket, outSocket := true, true;
      toNet.InitBuffer();
      InitTelnetStateMachine();
      SendTelnetInitialOptions();
    }

    method OpenDevice(found: Option<Port>)
      requires HalfOpen()
      modifies this`device, this`inSocket, this`outSocket, this`reported, this`book, port, toDev
      ensures if found.Some? then Follows(Opened(old(ServerView()).(port := found.value), old(ReceiverView())))
              else Disconnected() && ServerView() == old(ServerView()) && ReceiverView() == old(ReceiverView())
    {
      hide ValidReceiver, RingBuffer.Contents, RingBuffer.BufferLength, InitialOptions, Now, Balances, Opened;
      if found.None? {
        Drop();
      } else {
        PortOpened(found.value);
      }
    }

    method PortOpened(found: Port)
      requires HalfOpen()
      modifies this`device, this`reported, this`book, port, toDev
      ensures Follows(Opened(old(ServerView()).(port := found), old(ReceiverView())))
    {
      hide ValidReceiver, RingBuffer.Contents, RingBuffer.BufferLength, InitialOptions, Balances;
      port.Open(found);
      device := true;
      reported := PORT_OPENED;
      toDev.InitBuffer();
      book := Book(ServerView(), ReceiverView(), [], [], [], true);
      BookOpens(book, Now());
    }

    // ---------- The main loop ----------

    method LinesChange(lines: Lines)
      requires Connected()
      modifies this`book, port
      ensures Follows(Happen(old(CourseNow()), LinesAre(lines)))
    {
      hide RingBuffer.Contents, RingBuffer.BufferLength, ValidReceiver, Balances, Handle, Extended, Happen;
      BalancedIsSound(book, Now());
      EventExtends(Now(), LinesAre(lines));
      ghost var c, was := CourseNow(), Now();
      port.LinesBecome(lines);
      Record(c, was, LinesAre(lines));
    }

    /** Each phase runs if the loop head asked for it, select reports it and no earlier one left the iteration. */
    method ServeDeviceIn(was: Fate, asked: bool, outcome: Option<Read>, ghost c: Course) returns (fate: Fate)
      requires was == c.fate && Follows(c) && Running(c)
      modifies this`device, this`inSocket, this`outSocket, this`reported
      modifies this`txLast, this`book, toNet`wrPos, toNet.bytes
      ensures var next := DeviceInStep(c, asked, outcome); fate == next.fate && Follows(next)
    {
      hide Connected, Disconnected, ServerView, ReceiverView, ReadStep;
      fate := was;
      if was.Stays? && asked && outcome.Some? {
        fate := DeviceIn(outcome.value);
      }
    }

    method ServeDeviceOut(was: Fate, asked: bool, outcome: Option<Write>, ghost c: Course) returns (fate: Fate)
      requires was == c.fate && Follows(c) && Running(c)
      modifies this`device, this`inSocket, this`outSocket, this`reported, this`book, toDev`rdPos
      ensures var next := DeviceOutStep(c, asked, outcome); fate == next.fate && Follows(next)
    {
      hide Connected, Disconnected, ServerView, ReceiverView, ReadStep;
      fate := was;
      if was.Stays? && asked && outcome.Some? {
        fate := DeviceOut(outcome.value);
      }
    }

    method ServeSocketOut(was: Fate, asked: bool, outcome: Option<Write>, ghost c: Course) returns (fate: Fate)
      requires was == c.fate && Follows(c) && Running(c)
      modifies this`device, this`inSocket, this`outSocket, this`reported, this`book, toNet`rdPos
      ensures var next := SocketOutStep(c, asked, outcome); fate == next.fate && Follows(next)
    {
      hide Connected, Disconnected, ServerView, ReceiverView, ReadStep;
      fate := was;
      if was.Stays? && asked && outcome.Some? {
        fate := SocketOut(outcome.value);
      }
    }

    method ServeSocketIn(was: Fate, asked: bool, outcome: Option<Read>, ghost c: Course) returns (fate: Fate)
      requires was == c.fate && Follows(c) && Running(c)
      modifies this`device, this`inSocket, this`outSocket, this`reported
      modifies this`iacEscape, this`iacSigEscape, this`iacPos, this`rxLast, iacCommand
      modifies this`txLast, this`breakSignaled, this`inputFlow, this`lineStateMask, this`modemStateMask
      modifies this`book, port, tnstate, toNet`wrPos, toNet.bytes, toDev`wrPos, toDev.bytes
      ensures var next := SocketInStep(c, asked, outcome); fate == next.fate && Follows(next)
    {
      hide Connected, Disconnected, ServerView, ReceiverView, ReadStep;
      fate := was;
      if was.Stays? && asked && outcome.Some? {
        fate := SocketIn(outcome.value);
      }
    }

    /** The four transfers, in the source's order. */
    method Transfer(asked: Asked, e: Events, ghost c: Course) returns (fate: Fate)
      requires c.fate.Stays? && Follows(c) && Running(c)
      modifies this`device, this`inSocket, this`outSocket, this`reported
      modifies this`iacEscape, this`iacSigEscape, this`iacPos, this`rxLast, iacCommand
      modifies this`txLast, this`breakSignaled, this`inputFlow, this`lineStateMask, this`modemStateMask
      modifies this`book, port, tnstate, toNet, toNet.bytes, toDev, toDev.bytes
      ensures var next := Transfers(c, asked, e); fate == next.fate && Follows(next)
    {
      hide Follows, DeviceInStep, DeviceOutStep, SocketOutStep, SocketInStep, Running;
      ghost var c1 := DeviceInStep(c, asked.deviceIn, e.deviceIn);
      ghost var c2 := DeviceOutStep(c1, asked.deviceOut, e.deviceOut);
      ghost var c3 := SocketOutStep(c2, asked.socketOut, e.socketOut);
      WritesKeepRunning(c1, asked, e);
      fate := ServeDeviceIn(Stays, asked.deviceIn, e.deviceIn, c);
      fate := ServeDeviceOut(fate, asked.deviceOut, e.deviceOut, c1);
      fate := ServeSocketOut(fate, asked.socketOut, e.socketOut, c2);
      fate := ServeSocketIn(fate, asked.socketIn, e.socketIn, c3);
    }

    /** What the loop head asks select for. */
    method Ask(ghost c: Course) returns (asked: Asked)
      requires c.fate.Stays? && Follows(c)
      ensures asked == AskedAt(c)
    {
      hide RingBuffer.Contents, ValidReceiver, Balances, Now, ReceiverView;
      asked := Asked(toNet.BufferHasRoomFor(ESC_WRITE_BYTES) && inputFlow,
                     !toDev.IsBufferEmpty(),
                     !toNet.IsBufferEmpty(),
                     toDev.BufferHasRoomFor(1) && toNet.BufferHasRoomFor(HANDLE_BYTES),
                     inputFlow && toNet.BufferHasRoomFor(BYTE_COMMAND_BYTES));
    }

    /** One iteration; c is where the program is, and it ends up exactly where the functions on values say. */
    method Iterate(e: Events, ghost c: Course) returns (aborted: bool)
      requires Follows(c) && Running(c) && !c.fate.Stops?
      modifies this, iacCommand, port, tnstate, toNet, toNet.bytes, toDev, toDev.bytes
      ensures Follows(Iteration(c, e)) && (aborted <==> Iteration(c, e).fate.Stops?)
    {
      hide ServerView, ReceiverView, Valid, Now, Balances, Transfers, Happen, AskedAt, InitialOptions;
      hide Running;
      aborted := false;
      var fate, modemState := Stays, false;
      ghost var next := c;
      if device {
        var asked := Ask(c);
        modemState := asked.modem;
        LinesChange(e.lines);
        next := Happen(c, LinesAre(e.lines));
        fate := Transfer(asked, e, next);
        next := Transfers(next, asked, e);
      }
      if fate.Stops? {
        return true;
      } else if fate.Drops? {
        return;
      }
      if e.client && !(inSocket && outSocket) {
        Accept();
      }
      if inSocket && outSocket && !device {
        OpenDevice(e.found);
      }
      if modemState && e.polled {
        fate := PollModem();
        aborted := fate.Stops?;
      }
    }

    /** Any number of iterations, over any number of connections, unless one of them stops the program. */
    method Run(events: seq<Events>, ghost c: Course) returns (aborted: bool)
      requires Follows(c) && Running(c) && !c.fate.Stops?
      modifies this, iacCommand, port, tnstate, toNet, toNet.bytes, toDev, toDev.bytes
      ensures Follows(Iterations.Iterations(c, events))
      ensures aborted <==> Iterations.Iterations(c, events).fate.Stops?
      ensures !aborted ==> Connected() || Disconnected()
      ensures !aborted && device && book.intact ==>
                && book.network + toNet.Contents() == DueNetwork(book)
                && book.device + toDev.Contents() == DueDevice(book)
    {
      hide Connected, Disconnected, CourseNow, Running, Iteration;
      aborted := false;
      ghost var now := c;
      var i := 0;
      while i < |events| && !aborted
        invariant i <= |events| && Running(now) && Follows(now) && (aborted <==> now.fate.Stops?)
        invariant Iterations.Iterations(now, events[i..]) == Iterations.Iterations(c, events)
      {
        assert events[i..][1..] == events[i + 1..];
        aborted := Iterate(events[i], now);
        now := Iteration(now, events[i]);
        i := i + 1;
      }
      StoppedIsStopped(now, events[i..]);
      if !aborted && device && book.intact {
        NothingLost(now);
      }
    }

    lemma NothingLost(c: Course)
      requires Follows(c) && device && book.intact && !c.fate.Stops?
      ensures book.network + toNet.Contents() == DueNetwork(book)
      ensures book.device + toDev.Contents() == DueDevice(book)
    {
      hide Balances, DueNetwork, DueDevice;
      AccountIsKept(book, Now());
    }
  }
}
