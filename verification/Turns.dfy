/** What an iteration reads and writes, in numbers, and what the two flow commands make of it over whole runs. */
module Turns {
  import opened Wrappers
  import opened Bitwise
  import opened Checksums
  import opened Ports
  import opened ModemView
  import opened RingBuffers
  import opened Telnet
  import opened TelnetStreams
  import opened Commands
  import opened Connections
  import opened Clients
  import opened Iterations
  import opened Outcomes

  // ---------- One iteration in numbers ----------

  /** The room in a buffer of 2048 bytes, one of which stays unused. */
  function Left(g: Gauge): nat { if g.waiting <= 2047 then 2047 - g.waiting else 0 }

  function Front(bytes: seq<byte>, n: nat): seq<byte> { bytes[..Min(n, |bytes|)] }

  /** The device read: with the flow on and room for two bytes, up to 512 bytes and half the room. */
  function ReadOfDevice(c: Course, e: Events): seq<Event> {
    if c.server.inputFlow && Left(c.net) >= 2 && e.deviceIn.Some? && e.deviceIn.value.Waiting? then
      [FromDevice(Front(e.deviceIn.value.bytes, Min(512, Left(c.net) / 2)))]
    else []
  }

  /**
   * The socket read: if there was room for 516 bytes one way and one the other, up to 512 bytes, one for every 516
   * bytes of room and one for every byte of room, of the room there is once d is reached.
   */
  function ReadOfNet(c: Course, d: Course, e: Events): seq<Event> {
    if Left(c.dev) >= 1 && Left(c.net) >= 516 && e.socketIn.Some? && e.socketIn.value.Waiting? then
      [FromNet(Front(e.socketIn.value.bytes, Min(Min(512, Left(d.net) / 516), Left(d.dev))))]
    else []
  }

  /** The poll: with the flow on and room for eight bytes. */
  function PollOf(c: Course, e: Events): seq<Event> {
    if c.server.inputFlow && Left(c.net) >= 8 && e.polled then [Polled] else []
  }

  /** What the writes of an iteration amount to: at most what lies before the end of the array. */
  function Sent(asked: bool, outcome: Option<Write>, g: Gauge): nat {
    if asked && outcome.Some? && outcome.value.Accepts? then
      var contiguous := if g.from + g.waiting <= 2048 then g.waiting else if g.from <= 2048 then 2048 - g.from else 0;
      Min(outcome.value.n, contiguous)
    else 0
  }

  lemma DeviceInRecords(c: Course, asked: bool, outcome: Option<Read>)
    requires Running(c) && c.fate.Stays? && DeviceInStep(c, asked, outcome).fate.Stays?
    ensures var d := DeviceInStep(c, asked, outcome);
            && d.events == c.events + (if asked && outcome.Some? && outcome.value.Waiting? then
                                         [FromDevice(Front(outcome.value.bytes, Min(512, Left(c.net) / 2)))]
                                       else [])
            && d.dev == c.dev && d.toDevice == c.toDevice && d.toNetwork == c.toNetwork && d.net.from == c.net.from
  {
    hide Forward, Sound;
  }

  lemma DeviceOutRecords(c: Course, asked: bool, outcome: Option<Write>)
    requires Running(c) && c.fate.Stays? && DeviceOutStep(c, asked, outcome).fate.Stays?
    ensures var d := DeviceOutStep(c, asked, outcome);
            && d.events == c.events && d.net == c.net && d.toNetwork == c.toNetwork && d.server == c.server
            && d.toDevice == c.toDevice + Sent(asked, outcome, c.dev)
  {
    hide Sound;
  }

  lemma SocketOutRecords(c: Course, asked: bool, outcome: Option<Write>)
    requires Running(c) && c.fate.Stays? && SocketOutStep(c, asked, outcome).fate.Stays?
    ensures var d := SocketOutStep(c, asked, outcome);
            && d.events == c.events && d.dev == c.dev && d.toDevice == c.toDevice && d.server == c.server
            && d.toNetwork == c.toNetwork + Sent(asked, outcome, c.net)
  {
    hide Sound;
  }

  lemma SocketInRecords(c: Course, asked: bool, outcome: Option<Read>)
    requires Running(c) && c.fate.Stays? && SocketInStep(c, asked, outcome).fate.Stays?
    ensures var d := SocketInStep(c, asked, outcome);
            && d.events == c.events
                 + (if asked && outcome.Some? && outcome.value.Waiting? then
                      [FromNet(Front(outcome.value.bytes, Min(Min(512, Left(c.net) / 516), Left(c.dev))))]
                    else [])
            && d.toDevice == c.toDevice && d.toNetwork == c.toNetwork
  {
    hide RedirectAll, Sound;
  }

  lemma PollRecords(c: Course, asked: bool)
    requires Running(c) && c.fate.Stays?
    ensures var d := PollStep(c, asked);
            && (d.fate.Stays? ==> d.events == c.events + if asked then [Polled] else [])
            && d.toDevice == c.toDevice && d.toNetwork == c.toNetwork
  {
    hide Notify, Sound;
  }

  lemma LoopHeadAsks(c: Course)
    ensures var asked := AskedAt(c);
            && (asked.deviceIn <==> c.server.inputFlow && Left(c.net) >= 2)
            && (asked.deviceOut <==> c.dev.waiting > 0)
            && (asked.socketOut <==> c.net.waiting > 0)
            && (asked.socketIn <==> Left(c.dev) >= 1 && Left(c.net) >= 516)
            && (asked.modem <==> c.server.inputFlow && Left(c.net) >= 8)
  {}

  /** The iteration up to the device read. */
  function Begun(e: Events): Events { e.(deviceOut := None, socketOut := None, socketIn := None, polled := false) }

  lemma StaysAllAlong(c: Course, asked: Asked, e: Events)
    requires Running(c) && PollStep(Transfers(c, asked, e), asked.modem && e.polled).fate.Stays?
    ensures var c1 := DeviceInStep(c, asked.deviceIn, e.deviceIn);
            var c2 := DeviceOutStep(c1, asked.deviceOut, e.deviceOut);
            var c3 := SocketOutStep(c2, asked.socketOut, e.socketOut);
            var c4 := SocketInStep(c3, asked.socketIn, e.socketIn);
            c1.fate.Stays? && c2.fate.Stays? && c3.fate.Stays? && c4.fate.Stays?
  {
    hide Happen, ReadStep, Notify, Sound;
  }

  lemma BegunIs(c: Course, e: Events)
    requires Running(c) && c.fate.Stays?
    ensures Turn(c, Begun(e)) == DeviceInStep(Happen(c, LinesAre(e.lines)), AskedAt(c).deviceIn, e.deviceIn)
  {
    hide Happen, ReadStep, Notify, Sound, AskedAt;
  }

  lemma BeforeSocketRead(c: Course, e: Events)
    requires Running(c) && c.fate.Stays?
    ensures var asked := AskedAt(c);
            var read := DeviceInStep(Happen(c, LinesAre(e.lines)), asked.deviceIn, e.deviceIn);
            Turn(c, Unread(e))
            == SocketOutStep(DeviceOutStep(read, asked.deviceOut, e.deviceOut), asked.socketOut, e.socketOut)
  {
    hide Happen, ReadStep, Notify, Sound, AskedAt, DeviceInStep, DeviceOutStep, SocketOutStep;
  }

  lemma TransfersRecord(c: Course, asked: Asked, e: Events)
    requires Running(c) && c.fate.Stays?
    requires PollStep(Transfers(c, asked, e), asked.modem && e.polled).fate.Stays?
    ensures var n := PollStep(Transfers(c, asked, e), asked.modem && e.polled);
            var read := DeviceInStep(c, asked.deviceIn, e.deviceIn);
            var d := SocketOutStep(DeviceOutStep(read, asked.deviceOut, e.deviceOut), asked.socketOut, e.socketOut);
            && n.events == c.events
                 + (if asked.deviceIn && e.deviceIn.Some? && e.deviceIn.value.Waiting? then
                      [FromDevice(Front(e.deviceIn.value.bytes, Min(512, Left(c.net) / 2)))]
                    else [])
                 + (if asked.socketIn && e.socketIn.Some? && e.socketIn.value.Waiting? then
                      [FromNet(Front(e.socketIn.value.bytes, Min(Min(512, Left(d.net) / 516), Left(d.dev))))]
                    else [])
                 + (if asked.modem && e.polled then [Polled] else [])
            && n.toDevice == c.toDevice + Sent(asked.deviceOut, e.deviceOut, c.dev)
            && n.toNetwork == c.toNetwork + Sent(asked.socketOut, e.socketOut, read.net)
  {
    StaysAllAlong(c, asked, e);
    hide DeviceInStep, DeviceOutStep, SocketOutStep, SocketInStep, PollStep, Sound, Sent, Front, Left;
    var c1 := DeviceInStep(c, asked.deviceIn, e.deviceIn);
    DeviceInRecords(c, asked.deviceIn, e.deviceIn);
    var c2 := DeviceOutStep(c1, asked.deviceOut, e.deviceOut);
    DeviceOutRecords(c1, asked.deviceOut, e.deviceOut);
    var c3 := SocketOutStep(c2, asked.socketOut, e.socketOut);
    SocketOutRecords(c2, asked.socketOut, e.socketOut);
    var c4 := SocketInStep(c3, asked.socketIn, e.socketIn);
    SocketInRecords(c3, asked.socketIn, e.socketIn);
    PollRecords(c4, asked.modem && e.polled);
  }

  /**
   * An iteration that keeps its client records exactly these reads and this poll, and writes exactly so much: what
   * the device is read for and polled for depends on the flow and the room at the loop head.
   */
  lemma TurnDoesExactly(c: Course, e: Events)
    requires Running(c) && c.fate.Stays? && Turn(c, e).fate.Stays?
    ensures var n := Turn(c, e);
            && n.events == c.events + [LinesAre(e.lines)]
                             + ReadOfDevice(c, e) + ReadOfNet(c, Turn(c, Unread(e)), e) + PollOf(c, e)
            && n.toDevice == c.toDevice + Sent(c.dev.waiting > 0, e.deviceOut, c.dev)
            && n.toNetwork == c.toNetwork + Sent(c.net.waiting > 0, e.socketOut, Turn(c, Begun(e)).net)
  {
    var c0 := Happen(c, LinesAre(e.lines));
    LinesLeaveTheRest(c, e.lines);
    assert c0.events == c.events + [LinesAre(e.lines)] && c0.toDevice == c.toDevice && c0.toNetwork == c.toNetwork;
    LoopHeadAsks(c);
    BegunIs(c, e);
    UpToSocketRead(c, e);
    BeforeSocketRead(c, e);
    hide Happen, Running, AskedAt, Transfers, PollStep, DeviceInStep, DeviceOutStep, SocketOutStep, Sent, Front, Left;
    TransfersRecord(c0, AskedAt(c), e);
  }

  // ---------- A poll on the wire ----------

  /** CTS, DSR, ring and carrier, in the order of their bits in the modem state. */
  function LineBit(lines: Lines, k: nat): bool
    requires 4 <= k < 8
  {
    if k == 4 then lines.cts else if k == 5 then lines.dsr else if k == 6 then lines.rng else lines.car
  }

  /** The bits of a new modem state: the lines, and below them which of them changed. */
  predicate StateBit(lines: Lines, was: byte, k: nat)
    requires k < 8
  {
    if k >= 4 then LineBit(lines, k) else LineBit(lines, k + 4) != BitOf(was, k + 4)
  }

  lemma StateHasBits(lines: Lines, was: byte, k: nat)
    requires k < 8
    ensures BitOf(ModemStateOf(lines, was), k) == StateBit(lines, was, k)
  {
    hide BitOf, ModemStateOf;
    BitOfState(lines, was, k);
    assert k < 4 ==> StateBits(lines, was)[k] == (LineBit(lines, k + 4) != BitOf(was, k + 4));
  }

  /** A line that the mask shows differs from what is remembered of it. */
  predicate Differs(lines: Lines, was: byte, mask: byte) {
    exists k: nat | 4 <= k < 8 :: BitOf(mask, k) && BitOf(was, k) != LineBit(lines, k)
  }

  lemma NoticedExactlyWhen(lines: Lines, was: byte, mask: byte)
    ensures PollLines(was, mask, lines).notice.Some? <==> Differs(lines, was, mask)
  {
    hide BitOf, ModemStateOf, AndBytes, LineBit;
    var now := ModemStateOf(lines, was);
    var a, b := AndBytes(AndBytes(now, mask), NO_DELTA), AndBytes(AndBytes(was, mask), NO_DELTA);
    forall k: nat | k < 8
      ensures BitOf(a, k) == (k >= 4 && BitOf(mask, k) && StateBit(lines, was, k))
      ensures BitOf(b, k) == (k >= 4 && BitOf(mask, k) && BitOf(was, k))
    {
      BitOfAndBytes(AndBytes(now, mask), NO_DELTA, k);
      BitOfAndBytes(now, mask, k);
      BitOfAndBytes(AndBytes(was, mask), NO_DELTA, k);
      BitOfAndBytes(was, mask, k);
      BitOfNoDelta(k);
      StateHasBits(lines, was, k);
    }
    if !Differs(lines, was, mask) {
      SameBitsSameByte(a, b);
    }
  }

  /**
   * A poll that finds no shown line changed says and changes nothing; any other remembers the new state, and says
   * the part of it that the mask shows.
   */
  lemma PollSays(s: Server)
    ensures var did, lines := Notify(s), s.port.lines;
            if Differs(lines, s.modemState, s.modemStateMask) then
              && did == Did(s.(last := did.server.last, modemState := did.server.modemState),
                            OneByteAnswer(s, 107, did.server.last))
              && forall k: nat | k < 8 ::
                   && BitOf(did.server.modemState, k) == StateBit(lines, s.modemState, k)
                   && BitOf(did.server.last, k) == (BitOf(s.modemStateMask, k) && StateBit(lines, s.modemState, k))
            else did == Did(s, [])
  {
    NoticedExactlyWhen(s.port.lines, s.modemState, s.modemStateMask);
    hide BitOf, ModemStateOf, AndBytes, LineBit, Differs, OneByteAnswer;
    var now := ModemStateOf(s.port.lines, s.modemState);
    var said := AndBytes(now, s.modemStateMask);
    forall k: nat | k < 8
      ensures BitOf(now, k) == StateBit(s.port.lines, s.modemState, k)
      ensures BitOf(said, k) == (BitOf(s.modemStateMask, k) && StateBit(s.port.lines, s.modemState, k))
    {
      BitOfAndBytes(now, s.modemStateMask, k);
      StateHasBits(s.port.lines, s.modemState, k);
    }
    OneByteReply(s.(modemState := now), 107, said);
    SameAnswer(s, s.(modemState := now), 107, said);
  }

  /** What the peer drives is taken over, DTR and RTS stay ours, and nothing is sent or changed besides. */
  lemma PeerDrivesItsLines(c: Course, lines: Lines)
    requires Running(c)
    ensures var d, was := Happen(c, LinesAre(lines)), c.server.port.lines;
            && d == c.(server := c.server.(port := d.server.port), events := c.events + [LinesAre(lines)])
            && d.server.port.termios == c.server.port.termios
            && d.server.port.lines == was.(dsr := lines.dsr, cts := lines.cts, rng := lines.rng, car := lines.car)
  {
    hide Sound;
  }

  // ---------- FLOWCONTROL-SUSPEND and -RESUME ----------

  predicate Suspends(command: seq<byte>) {
    |command| >= 4 && command[1] == 250 && command[2] == 44 && command[3] == 8
  }

  predicate Resumes(command: seq<byte>) {
    |command| >= 4 && command[1] == 250 && command[2] == 44 && command[3] == 9
  }

  /** A command changes the flow only as one of the two, and only with the option on. */
  lemma FlowAfter(s: Server, command: seq<byte>)
    requires ValidPlatform(s.platform) && Dispatchable(command)
    ensures HandleIACCommand(s, command).server.inputFlow
         == if !PortOptionOn(s) then s.inputFlow
            else if Suspends(command) then false else if Resumes(command) then true else s.inputFlow
  {
    if command[1] == SB {
      PerformLeaves(s, command);
    }
    hide EscWriteAll, LastOf, SpeedBytes, Negotiate;
  }

  /** Nothing but these two commands changes the flow. */
  lemma {:induction false} BytesAndFlow(s: Server, r: Receiver, bytes: seq<byte>)
    requires Sound(s, r)
    ensures var out := RedirectAll(s, r, bytes);
            && (!s.inputFlow && (forall command <- out.commands :: !Resumes(command)) ==> !out.server.inputFlow)
            && (s.inputFlow && (forall command <- out.commands :: !Suspends(command)) ==> out.server.inputFlow)
    decreases |bytes|
  {
    if bytes != [] {
      ReceiveKeepsValid(r, s.ReceivesBinary(), bytes[0]);
      var step := Receive(r, s.ReceivesBinary(), bytes[0]);
      hide Receive, HandleIACCommand, Dispatchable, ValidReceiver, Resumes, Suspends;
      if step.command.Some? {
        FlowAfter(s, step.command.value);
      }
      var one := EscRedirectChar(s, r, bytes[0]);
      BytesAndFlow(one.server, one.receiver, bytes[1..]);
    }
  }

  /** The commands handled in this iteration. */
  ghost function Handled(c: Course, e: Events): seq<seq<byte>>
    requires Running(c)
  {
    if !c.fate.Stays? then []
    else
      var d := Turn(c, Unread(e));
      var read := ReadOfNet(c, d, e);
      if !d.fate.Stays? || read == [] then [] else RedirectAll(d.server, d.receiver, read[0].bytes).commands
  }

  /** None of the commands handled in these iterations is FLOWCONTROL-RESUME. */
  ghost predicate Unresumed(c: Course, events: seq<Events>)
    requires Running(c)
    decreases |events|
  {
    events != [] ==>
      && (forall command <- Handled(c, events[0]) :: !Resumes(command))
      && Unresumed(Iteration(c, events[0]), events[1..])
  }

  /** The iteration without what select reports of the device's input and of the modem lines. */
  function Deaf(e: Events): Events { e.(deviceIn := None, polled := false) }

  function DeafAll(events: seq<Events>): (deaf: seq<Events>)
    ensures |deaf| == |events| && forall i :: 0 <= i < |events| ==> deaf[i] == Deaf(events[i])
  {
    seq(|events|, i requires 0 <= i < |events| => Deaf(events[i]))
  }

  lemma SuspendedIterationIsDeaf(c: Course, e: Events)
    requires Running(c) && !c.server.inputFlow
    ensures Iteration(c, e) == Iteration(c, Deaf(e))
  {
    hide Happen, ReadStep, Notify, Sound, DeviceOutStep, SocketOutStep, SocketInStep;
  }

  lemma SocketInFlow(c: Course, d: Course, e: Events)
    requires Running(c) && Running(d) && !d.server.inputFlow
    requires d.fate.Stays? && ReadOfNet(c, d, e) != [] ==>
      forall command <- RedirectAll(d.server, d.receiver, ReadOfNet(c, d, e)[0].bytes).commands :: !Resumes(command)
    ensures !SocketInStep(d, AskedAt(c).socketIn, e.socketIn).server.inputFlow
  {
    LoopHeadAsks(c);
    hide RedirectAll, Sound, Resumes;
    var read := ReadOfNet(c, d, e);
    if d.fate.Stays? && read != [] {
      BytesAndFlow(d.server, d.receiver, read[0].bytes);
    }
  }

  lemma SuspendedUpToRead(c: Course, e: Events)
    requires Running(c) && !c.server.inputFlow && c.fate.Stays?
    ensures !Turn(c, Unread(e)).server.inputFlow
  {
    BeforeSocketRead(c, e);
    hide Sound, ReadStep, Turn;
  }

  lemma SuspendedStaysSo(c: Course, e: Events)
    requires Running(c) && !c.server.inputFlow && forall command <- Handled(c, e) :: !Resumes(command)
    ensures !Iteration(c, e).server.inputFlow
  {
    if c.fate.Stays? {
      SuspendedUpToRead(c, e);
      SocketInFlow(c, Turn(c, Unread(e)), e);
      UpToSocketRead(c, e);
      LoopHeadAsks(c);
      hide Happen, Transfers, SocketInStep, Running, Notify, AskedAt, Resumes, ReadOfNet;
    }
  }

  /**
   * Once suspended and until a RESUME is handled, over any iterations and connections: whatever select reports of
   * the device's input and of the modem lines, everything is as if it reported neither.
   */
  lemma {:induction false} SuspendedIsDeaf(c: Course, events: seq<Events>)
    requires Running(c) && !c.server.inputFlow && Unresumed(c, events)
    ensures var d := Iterations.Iterations(c, events);
            !d.server.inputFlow && d == Iterations.Iterations(c, DeafAll(events))
    decreases |events|
  {
    hide Iteration, Running, Handled, Resumes;
    if events == [] {
      assert DeafAll(events) == [];
    } else {
      SuspendedIterationIsDeaf(c, events[0]);
      SuspendedStaysSo(c, events[0]);
      SuspendedIsDeaf(Iteration(c, events[0]), events[1..]);
      assert DeafAll(events)[1..] == DeafAll(events[1..]);
    }
  }

  /** Whether the flow is on depends, like the options and the parser, on the network's bytes alone. */
  lemma {:induction false} BytesSettleFlow(s: Server, t: Server, r: Receiver, bytes: seq<byte>)
    requires Sound(s, r) && Sound(t, r) && s.options == t.options && s.inputFlow == t.inputFlow
    ensures RedirectAll(s, r, bytes).server.inputFlow == RedirectAll(t, r, bytes).server.inputFlow
    decreases |bytes|
  {
    if bytes != [] {
      OneByteAlone(s, t, r, bytes[0]);
      ReceiveKeepsValid(r, s.ReceivesBinary(), bytes[0]);
      var step := Receive(r, s.ReceivesBinary(), bytes[0]);
      hide Receive, HandleIACCommand, Dispatchable, ValidReceiver, Suspends, Resumes;
      if step.command.Some? {
        FlowAfter(s, step.command.value);
        FlowAfter(t, step.command.value);
      }
      var a, b := EscRedirectChar(s, r, bytes[0]), EscRedirectChar(t, r, bytes[0]);
      BytesSettleFlow(a.server, b.server, a.receiver, bytes[1..]);
    }
  }

  lemma OtherEventsLeaveFlow(s: Server, r: Receiver, event: Event)
    requires Sound(s, r) && !event.FromNet?
    ensures Handle(s, r, event).server.inputFlow == s.inputFlow
  {
    hide EscWriteAll, PollLines, LastOf;
  }

  lemma {:induction false} FlowIsOfNetworkBytes(s: Server, r: Receiver, events: seq<Event>)
    requires Sound(s, r)
    ensures Replay(s, r, events).server.inputFlow == RedirectAll(s, r, NetBytes(events)).server.inputFlow
    decreases |events|
  {
    hide RedirectAll, Sound, Handle;
    if events == [] {
      NothingRedirected(s, r);
    } else {
      var n := |events| - 1;
      FlowIsOfNetworkBytes(s, r, events[..n]);
      DeviceStreamIsOfNetworkBytes(s, r, events[..n]);
      var before, alone := Replay(s, r, events[..n]), RedirectAll(s, r, NetBytes(events[..n]));
      if events[n].FromNet? {
        BytesSettleFlow(before.server, alone.server, alone.receiver, events[n].bytes);
        RedirectAppend(s, r, NetBytes(events[..n]), events[n].bytes);
        HandledBytes(before.server, before.receiver, events[n]);
      } else {
        OtherEventsLeaveFlow(before.server, before.receiver, events[n]);
        assert NetBytes(events) == NetBytes(events[..n]);
      }
    }
  }

  lemma HandledBytes(s: Server, r: Receiver, event: Event)
    requires Sound(s, r) && event.FromNet?
    ensures Handle(s, r, event) == RedirectAll(s, r, event.bytes)
  {}

  // ---------- A connection and its events ----------

  /** The server and the parser are what the connection's events made of those it opened with. */
  ghost predicate Kept(c: Course) {
    c.fate.Stays? ==>
      Sound(c.origin, c.tuned)
      && var out := Replay(c.origin, c.tuned, c.events); c.server == out.server && c.receiver == out.receiver
  }

  lemma HappeningIsKept(c: Course, event: Event)
    requires Running(c) && Kept(c)
    ensures Kept(Happen(c, event))
  {
    hide Handle, Sound;
    assert (c.events + [event])[..|c.events|] == c.events;
  }

  lemma ReadingIsKept(c: Course, asked: bool, outcome: Option<Read>)
    requires Running(c) && Kept(c)
    ensures Kept(DeviceInStep(c, asked, outcome)) && Kept(SocketInStep(c, asked, outcome))
  {
    hide Replay, Happen, Fails, Sound;
    if outcome.Some? {
      HappeningIsKept(c, FromDevice(Taken(outcome.value, DeviceTry(c))));
      HappeningIsKept(c, FromNet(Taken(outcome.value, SocketTry(c))));
    }
  }

  lemma WritingIsKept(c: Course, asked: Asked, e: Events)
    requires Running(c) && Kept(c)
    ensures Kept(DeviceOutStep(c, asked.deviceOut, e.deviceOut)) && Kept(SocketOutStep(c, asked.socketOut, e.socketOut))
  {
    hide Replay, Sound;
  }

  lemma PollingIsKept(c: Course, asked: bool)
    requires Running(c) && Kept(c)
    ensures Kept(PollStep(c, asked))
  {
    hide Replay, Happen, Sound, Notify;
    HappeningIsKept(c, Polled);
  }

  lemma IterationIsKept(c: Course, e: Events)
    requires Running(c) && Kept(c)
    ensures Kept(Iteration(c, e))
  {
    if c.fate.Stays? {
      var asked := AskedAt(c);
      var c0 := Happen(c, LinesAre(e.lines));
      HappeningIsKept(c, LinesAre(e.lines));
      ReadingIsKept(c0, asked.deviceIn, e.deviceIn);
      var c1 := DeviceInStep(c0, asked.deviceIn, e.deviceIn);
      WritingIsKept(c1, asked, e);
      var c2 := DeviceOutStep(c1, asked.deviceOut, e.deviceOut);
      WritingIsKept(c2, asked, e);
      var c3 := SocketOutStep(c2, asked.socketOut, e.socketOut);
      ReadingIsKept(c3, asked.socketIn, e.socketIn);
      PollingIsKept(SocketInStep(c3, asked.socketIn, e.socketIn), asked.modem && e.polled);
      hide Kept, Happen, Running, DeviceInStep, DeviceOutStep, SocketOutStep, SocketInStep, PollStep, AskedAt;
    }
  }

  /** Over any iterations and connections, from before the first one on. */
  lemma {:induction false} ConnectionIsKept(c: Course, events: seq<Events>)
    requires Running(c) && Kept(c)
    ensures Kept(Iterations.Iterations(c, events))
    decreases |events|
  {
    hide Iteration, Kept, Running;
    if events != [] {
      IterationIsKept(c, events[0]);
      ConnectionIsKept(Iteration(c, events[0]), events[1..]);
    }
  }

  /**
   * The six bytes of a flow command settle the flow, however the reads were cut and whatever happened in between, if
   * they found the parser outside any command and the COM-port option on.
   */
  lemma FlowCommandIsHeard(c: Course, before: seq<byte>, kind: byte)
    requires Kept(c) && c.fate.Stays? && (kind == 8 || kind == 9)
    requires NetBytes(c.events) == before + [255, 250, 44, kind, 255, 240]
    requires var b := RedirectAll(c.origin, c.tuned, before); b.receiver.esc == Normal && PortOptionOn(b.server)
    ensures c.server.inputFlow == (kind == 9)
  {
    var b, command := RedirectAll(c.origin, c.tuned, before), [255, 250, 44, kind, 255, 240];
    FlowIsOfNetworkBytes(c.origin, c.tuned, c.events);
    RedirectAppend(c.origin, c.tuned, before, command);
    FlowCommandsDo(b.server, b.receiver, kind);
    hide RedirectAll, Replay, Sound, PortOptionOn;
  }

  /**
   * From the bytes of FLOWCONTROL-SUSPEND on: once they have been read, in however many iterations of a connection,
   * and until a RESUME is handled, everything is as if select reported no device input and no modem lines.
   */
  lemma SuspendIsObeyed(start: Course, events: seq<Events>, before: seq<byte>, more: seq<Events>)
    requires Running(start) && Kept(start)
    requires var c := Iterations.Iterations(start, events);
             && c.fate.Stays? && NetBytes(c.events) == before + [255, 250, 44, 8, 255, 240]
             && Sound(c.origin, c.tuned)
             && (var b := RedirectAll(c.origin, c.tuned, before); b.receiver.esc == Normal && PortOptionOn(b.server))
             && Unresumed(c, more)
    ensures var c := Iterations.Iterations(start, events);
            Iterations.Iterations(c, more) == Iterations.Iterations(c, DeafAll(more))
  {
    ConnectionIsKept(start, events);
    var c := Iterations.Iterations(start, events);
    FlowCommandIsHeard(c, before, 8);
    SuspendedIsDeaf(c, more);
    hide Running, RedirectAll, Kept;
  }

  /** A new client finds a fresh option table and the port as the open found it; all else is as the last one left it. */
  lemma NewClientFinds(c: Course, e: Events)
    requires Running(c) && c.fate.Drops? && e.client && e.found.Some?
    ensures var n := Iteration(c, e);
            && n == Course(Stays, n.server, c.receiver, Gauge(18, 0), Gauge(0, 0), n.server, c.receiver, [], 0, 0, true)
            && n.server == c.server.(options := n.server.options, port := e.found.value)
            && forall i: nat | i < 256 ::
                 var sent := Half(i == 0 || i == 1 || i == 3, false);
                 n.server.options[i] == Opt(sent, Half(i == 0 || i == 3 || i == 44, false))
  {
    hide Sound;
  }

  /** Without a client nothing happens, and a client whose port cannot be opened leaves a fresh table and no more. */
  lemma NobodyIsServed(c: Course, e: Events)
    requires Running(c) && c.fate.Drops?
    ensures !e.client ==> Iteration(c, e) == c
    ensures e.client && e.found.None? ==>
              Iteration(c, e) == c.(server := c.server.(options := InitialOptions()))
  {
    hide Sound, InitialOptions;
  }

  /**
   * A blocked read: where a long has four bytes it stops the program, and where it has eight the iteration is as if
   * it had not been reported.
   */
  lemma BlockedReadDoes(c: Course, e: Events)
    requires Running(c) && c.fate.Stays? && e.deviceIn == Some(ReadBlocks) && c.server.inputFlow && Left(c.net) >= 2
    ensures c.server.platform.longSize == 4 ==> Turn(c, e).fate.Stops?
    ensures c.server.platform.longSize == 8 ==> Turn(c, e) == Turn(c, e.(deviceIn := None))
  {
    LoopHeadAsks(c);
    StopsExactlyWhen(c, e);
    if c.server.platform.longSize == 8 {
      BlockedReadIsNothingWide(c, e);
    }
    hide Running, Turn, AskedAt;
  }

  // ---------- What is sent while suspended ----------

  /** Nothing read from the device and nothing polled. */
  predicate Quiet(events: seq<Event>) { forall event <- events :: event.FromNet? || event.LinesAre? }

  function Since(base: Course, c: Course): seq<Event>
    requires base.events <= c.events
  {
    c.events[|base.events|..]
  }

  /**
   * From base to c the connection went on with nothing read from the device and nothing polled: the server and the
   * parser are what these events made of them, and every byte they made waits or was accepted.
   */
  ghost predicate Grown(base: Course, c: Course)
    requires Running(base)
  {
    && Running(c) && base.events <= c.events && Quiet(Since(base, c))
    && var out := Replay(base.server, base.receiver, Since(base, c));
    && c.server == out.server && c.receiver == out.receiver
    && c.toNetwork + c.net.waiting == base.toNetwork + base.net.waiting + |out.net|
    && c.toDevice + c.dev.waiting == base.toDevice + base.dev.waiting + |out.dev|
  }

  lemma HappeningGrows(base: Course, c: Course, event: Event)
    requires Running(base) && Grown(base, c) && (event.FromNet? || event.LinesAre?)
    ensures Grown(base, Happen(c, event))
  {
    hide Handle, Sound;
    var events, d := Since(base, c), Happen(c, event);
    assert Since(base, d) == events + [event] && Since(base, d)[..|events|] == events;
  }

  lemma WritingGrows(base: Course, c: Course, asked: Asked, e: Events)
    requires Running(base) && Grown(base, c) && !e.Blocks()
    ensures Grown(base, DeviceOutStep(c, asked.deviceOut, e.deviceOut))
    ensures Grown(base, SocketOutStep(c, asked.socketOut, e.socketOut))
  {
    hide Replay, Sound, Quiet;
  }

  lemma SocketReadGrows(base: Course, c: Course, asked: bool, outcome: Option<Read>)
    requires Running(base) && Grown(base, c)
    ensures Grown(base, SocketInStep(c, asked, outcome))
  {
    hide Replay, Happen, Fails, Sound, Quiet;
    if outcome.Some? {
      HappeningGrows(base, c, FromNet(Taken(outcome.value, SocketTry(c))));
    }
  }

  lemma SuspendedTurnGrows(base: Course, c: Course, e: Events)
    requires Running(base) && Grown(base, c) && !c.server.inputFlow && !e.Blocks() && c.fate.Stays?
    ensures Grown(base, Iteration(c, e))
  {
    var asked := AskedAt(c);
    assert !asked.deviceIn && !asked.modem;
    var c0 := Happen(c, LinesAre(e.lines));
    HappeningGrows(base, c, LinesAre(e.lines));
    WritingGrows(base, c0, asked, e);
    var c1 := DeviceOutStep(c0, asked.deviceOut, e.deviceOut);
    WritingGrows(base, c1, asked, e);
    SocketReadGrows(base, SocketOutStep(c1, asked.socketOut, e.socketOut), asked.socketIn, e.socketIn);
    hide Grown, Happen, Running, DeviceOutStep, SocketOutStep, SocketInStep, AskedAt, Notify;
  }

  lemma {:induction false} SuspendedRunGrows(base: Course, c: Course, events: seq<Events>)
    requires Running(base) && Running(c) && Grown(base, c) && !c.server.inputFlow
    requires Lasts(c, events) && Unresumed(c, events)
    requires forall e <- events :: !e.Blocks()
    ensures Grown(base, Iterations.Iterations(c, events))
    decreases |events|
  {
    hide Iteration, Grown, Handled, Resumes;
    if events != [] {
      var e := events[0];
      assert e in events && forall f <- events[1..] :: f in events;
      SuspendedTurnGrows(base, c, e);
      SuspendedStaysSo(c, e);
      SuspendedRunGrows(base, Iteration(c, e), events[1..]);
    }
  }

  lemma {:induction false} QuietActsAreAnswers(s: Server, r: Receiver, events: seq<Event>)
    requires Sound(s, r) && Quiet(events)
    ensures forall act <- ActsOf(s, r, events) :: act.Obey? || act.See?
    decreases |events|
  {
    hide Replay, RedirectAll, Sound;
    if events != [] {
      var n := |events| - 1;
      assert events[n] in events && forall event <- events[..n] :: event in events;
      QuietActsAreAnswers(s, r, events[..n]);
    }
  }

  lemma NothingHappened(s: Server, r: Receiver)
    requires Sound(s, r)
    ensures Replay(s, r, []) == Redirected(s, r, [], [], [])
  {}

  /**
   * So while a client has its output suspended, all it is sent is the answers to its own commands: no byte read from
   * the device and no notification.
   */
  lemma SuspendedOnlyAnswers(c: Course, events: seq<Events>)
    requires Running(c) && !c.server.inputFlow && Lasts(c, events) && Unresumed(c, events)
    requires forall e <- events :: !e.Blocks()
    ensures var d := Iterations.Iterations(c, events);
            && c.events <= d.events && Quiet(Since(c, d))
            && var acts, wire := ActsOf(c.server, c.receiver, Since(c, d)),
                                 Replay(c.server, c.receiver, Since(c, d)).net;
            && (forall act <- acts :: act.Obey? || act.See?)
            && Does(c.server, acts, d.server, wire)
            && d.toNetwork + d.net.waiting == c.toNetwork + c.net.waiting + |wire|
  {
    hide Does, ActsOf, Replay, Sound;
    assert Since(c, c) == [];
    NothingHappened(c.server, c.receiver);
    SuspendedRunGrows(c, c, events);
    var since := Since(c, Iterations.Iterations(c, events));
    QuietActsAreAnswers(c.server, c.receiver, since);
    ConnectionIsActs(c.server, c.receiver, since);
  }
}
