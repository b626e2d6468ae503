/** What the course of the main loop comes to: when a client is kept, when it is lost, when the program stops. */
module Outcomes {
  import opened Wrappers
  import opened Bitwise
  import opened Ports
  import opened RingBuffers
  import opened Telnet
  import opened TelnetStreams
  import opened Replies
  import opened Connections
  import opened Iterations

  // ---------- Exactly when ----------

  /** The read is an error or the end of the stream. */
  predicate Ends(outcome: Option<Read>) { outcome == Some(ReadFails) || outcome == Some(Waiting([])) }

  /** The write is an error, or accepts nothing. */
  predicate Refuses(outcome: Option<Write>) { outcome == Some(WriteFails) || outcome == Some(Accepts(0)) }

  /** A blocked read that the narrow loop takes for one of 4294967295 bytes. */
  predicate Overruns(c: Course, asked: bool, outcome: Option<Read>) {
    Narrow(c.server.platform) && asked && outcome == Some(ReadBlocks)
  }

  /** The iteration without what comes last in it: the socket read and the poll, or the poll alone. */
  function Unread(e: Events): Events { e.(socketIn := None, polled := false) }

  function Unpolled(e: Events): Events { e.(polled := false) }

  lemma TryWhenAsked(c: Course, outcome: Read)
    requires Running(c)
    ensures AskedAt(c).deviceIn ==> (Fails(outcome, DeviceTry(c)) <==> Ends(Some(outcome)))
  {}

  lemma LinesLeaveTheRest(c: Course, lines: Lines)
    requires Running(c)
    ensures var d := Happen(c, LinesAre(lines));
            && d.fate == c.fate && d.net == c.net && d.dev == c.dev && d.server.platform == c.server.platform
            && AskedAt(d) == AskedAt(c)
  {}

  lemma DeviceInStepIs(c: Course, asked: bool, outcome: Option<Read>)
    requires Running(c) && c.fate.Stays? && (asked ==> AskedAt(c).deviceIn)
    ensures var d := DeviceInStep(c, asked, outcome);
            && d.server.platform == c.server.platform
            && (d.fate.Stops? <==> Overruns(c, asked, outcome))
            && (d.fate.Drops? <==> asked && Ends(outcome))
            && d.dev == c.dev && d.net.waiting >= c.net.waiting && d.net.from == c.net.from
            && (outcome.None? ==> d == c)
  {
    if outcome.Some? {
      TryWhenAsked(c, outcome.value);
    }
    hide EscWriteAll, LastOf, Sound;
  }

  lemma DeviceOutStepIs(c: Course, asked: bool, outcome: Option<Write>)
    requires Running(c) && (asked ==> c.dev.waiting > 0)
    ensures var d := DeviceOutStep(c, asked, outcome);
            && d.server == c.server && d.net == c.net
            && (d.fate.Stops? <==> c.fate.Stops?)
            && (d.fate.Drops? <==> c.fate.Drops? || (c.fate.Stays? && asked && Refuses(outcome)))
            && (d.fate.Stays? && outcome != Some(WriteBlocks) ==> d.dev.Room() >= c.dev.Room())
  {
    hide Sound;
  }

  lemma SocketOutStepIs(c: Course, asked: bool, outcome: Option<Write>)
    requires Running(c) && (asked && c.fate.Stays? ==> c.net.waiting > 0)
    ensures var d := SocketOutStep(c, asked, outcome);
            && d.server == c.server && d.dev == c.dev
            && (d.fate.Stops? <==> c.fate.Stops?)
            && (d.fate.Drops? <==> c.fate.Drops? || (c.fate.Stays? && asked && Refuses(outcome)))
            && (d.fate.Stays? && outcome != Some(WriteBlocks) ==> d.net.Room() >= c.net.Room())
  {
    hide Sound;
  }

  /** The device read or one of the writes, if asked for, ends the connection. */
  predicate SomethingFails(asked: Asked, e: Events) {
    || (asked.deviceIn && Ends(e.deviceIn))
    || (asked.deviceOut && Refuses(e.deviceOut))
    || (asked.socketOut && Refuses(e.socketOut))
  }

  /** Up to the socket read: what has stopped the program or dropped the client by then. */
  lemma UpToSocketRead(c: Course, e: Events)
    requires Running(c) && c.fate.Stays?
    ensures var asked, d := AskedAt(c), Turn(c, Unread(e));
            && Running(d) && d.server.platform == c.server.platform
            && (d.fate.Stops? <==> Overruns(c, asked.deviceIn, e.deviceIn))
            && (d.fate.Drops? <==> !d.fate.Stops? && SomethingFails(asked, e))
            && (d.fate.Stays? && e.deviceIn.None? && !e.Blocks() ==>
                  d.net.Room() >= c.net.Room() && d.dev.Room() >= c.dev.Room())
            && Transfers(Happen(c, LinesAre(e.lines)), asked, e) == SocketInStep(d, asked.socketIn, e.socketIn)
  {
    var asked := AskedAt(c);
    LinesLeaveTheRest(c, e.lines);
    var c0 := Happen(c, LinesAre(e.lines));
    DeviceInStepIs(c0, asked.deviceIn, e.deviceIn);
    var c1 := DeviceInStep(c0, asked.deviceIn, e.deviceIn);
    DeviceOutStepIs(c1, asked.deviceOut, e.deviceOut);
    var c2 := DeviceOutStep(c1, asked.deviceOut, e.deviceOut);
    SocketOutStepIs(c2, asked.socketOut, e.socketOut);
    var c3 := SocketOutStep(c2, asked.socketOut, e.socketOut);
    NothingMoreAsked(c3, asked.socketIn, asked.modem);
    assert Turn(c, Unread(e)) == c3;
    hide Running, Happen, DeviceInStep, DeviceOutStep, SocketOutStep, SocketInStep, PollStep, Turn, AskedAt;
  }

  lemma NothingMoreAsked(c: Course, socketIn: bool, modem: bool)
    requires Running(c)
    ensures SocketInStep(c, socketIn, None) == c && PollStep(c, modem && false) == c
  {}

  lemma SocketInStepIs(c: Course, asked: bool, outcome: Option<Read>)
    requires Running(c)
    ensures var d := SocketInStep(c, asked, outcome);
            && (d.fate.Stops? <==> c.fate.Stops? || (c.fate.Stays? && Overruns(c, asked, outcome)))
            && (d.fate.Drops? <==> c.fate.Drops? || (c.fate.Stays? && FailsToRead(c, asked, outcome)))
            && (outcome.None? ==> d == c)
  {
    hide Happen, Sound, Fails;
  }

  /** The socket read fails, ends, or has no room in one of the buffers. */
  predicate FailsToRead(c: Course, asked: bool, outcome: Option<Read>) {
    asked && outcome.Some? && !outcome.value.ReadBlocks? && Fails(outcome.value, SocketTry(c))
  }

  /** The notification does not fit. */
  predicate NoticeOverfills(c: Course, asked: bool) { asked && c.net.Room() < |Notify(c.server).wire| }

  /**
   * The program stops exactly at a blocked read where ssize_t is narrow, or, where assertions are compiled in, at a
   * poll whose notification does not fit: d and t are where the connection stands before the socket read and before
   * the poll.
   */
  lemma StopsExactlyWhen(c: Course, e: Events)
    requires Running(c) && c.fate.Stays?
    ensures var asked, d, t := AskedAt(c), Turn(c, Unread(e)), Turn(c, Unpolled(e));
            Turn(c, e).fate.Stops? <==>
              || Overruns(c, asked.deviceIn, e.deviceIn)
              || (d.fate.Stays? && Overruns(c, asked.socketIn, e.socketIn))
              || (t.fate.Stays? && c.server.platform.asserts && NoticeOverfills(t, asked.modem && e.polled))
  {
    UpToSocketRead(c, e);
    var asked, d := AskedAt(c), Turn(c, Unread(e));
    SocketInStepIs(d, asked.socketIn, e.socketIn);
    BeforePoll(c, e);
    TransfersKeepPlatform(c, e);
    hide AskedAt, Happen, Transfers, SocketInStep, Running, Notify;
  }

  lemma BeforePoll(c: Course, e: Events)
    requires Running(c)
    ensures Turn(c, Unpolled(e)) == Transfers(Happen(c, LinesAre(e.lines)), AskedAt(c), e)
  {
    hide AskedAt, Happen, DeviceInStep, DeviceOutStep, SocketOutStep, SocketInStep, Running, Notify;
  }

  lemma {:induction false} RedirectingKeepsPlatform(s: Server, r: Receiver, bytes: seq<byte>)
    requires Sound(s, r)
    ensures RedirectAll(s, r, bytes).server.platform == s.platform
    decreases |bytes|
  {
    if bytes != [] {
      ReceiveKeepsValid(r, s.ReceivesBinary(), bytes[0]);
      var step := Receive(r, s.ReceivesBinary(), bytes[0]);
      hide Receive, HandleIACCommand, Dispatchable, ValidReceiver;
      if step.command.Some? {
        HandlingLeaves(s, step.command.value);
      }
      var one := EscRedirectChar(s, r, bytes[0]);
      RedirectingKeepsPlatform(one.server, one.receiver, bytes[1..]);
    }
  }

  lemma HappeningKeepsPlatform(c: Course, event: Event)
    requires Running(c)
    ensures Happen(c, event).server.platform == c.server.platform
  {
    if event.FromNet? {
      RedirectingKeepsPlatform(c.server, c.receiver, event.bytes);
    }
    hide RedirectAll, EscWriteAll, LastOf, ModemView.PollLines, Sound;
  }

  lemma SocketInKeepsPlatform(c: Course, asked: bool, outcome: Option<Read>)
    requires Running(c)
    ensures SocketInStep(c, asked, outcome).server.platform == c.server.platform
  {
    hide Happen, Running, Fails;
    if outcome.Some? {
      HappeningKeepsPlatform(c, FromNet(Taken(outcome.value, SocketTry(c))));
    }
  }

  lemma TransfersKeepPlatform(c: Course, e: Events)
    requires Running(c) && c.fate.Stays?
    ensures Turn(c, Unpolled(e)).server.platform == c.server.platform
  {
    UpToSocketRead(c, e);
    BeforePoll(c, e);
    SocketInKeepsPlatform(Turn(c, Unread(e)), AskedAt(c).socketIn, e.socketIn);
    hide AskedAt, Happen, Transfers, SocketInStep, Running, Turn;
  }

  lemma IterationKeepsPlatform(c: Course, e: Events)
    requires Running(c)
    ensures Iteration(c, e).server.platform == c.server.platform
  {
    if c.fate.Stays? {
      TransfersKeepPlatform(c, e);
      var t := Turn(c, Unpolled(e));
      HappeningKeepsPlatform(t, Polled);
      BeforePoll(c, e);
      hide Happen, Transfers, Running, Notify;
    }
  }

  /** A client is dropped exactly when a read or write fails or ends, or the socket is read without room. */
  lemma DropsExactlyWhen(c: Course, e: Events)
    requires Running(c) && c.fate.Stays?
    ensures var asked, d := AskedAt(c), Turn(c, Unread(e));
            Turn(c, e).fate.Drops? <==>
              !Overruns(c, asked.deviceIn, e.deviceIn)
              && (SomethingFails(asked, e) || FailsToRead(d, asked.socketIn, e.socketIn))
  {
    UpToSocketRead(c, e);
    var asked, d := AskedAt(c), Turn(c, Unread(e));
    SocketInStepIs(d, asked.socketIn, e.socketIn);
    hide AskedAt, Happen, Transfers, SocketInStep, Running, Notify, FailsToRead, Fails, Unread;
    assert Turn(c, e).fate.Drops? <==> Transfers(Happen(c, LinesAre(e.lines)), asked, e).fate.Drops?;
  }

  /** Without a device read or a blocked write beforehand, the room granted to the socket read is still there. */
  lemma RoomHoldsWithoutCompetition(c: Course, e: Events)
    requires Running(c) && c.fate.Stays? && AskedAt(c).socketIn
    requires e.deviceIn.None? && !e.Blocks()
    ensures var d := Turn(c, Unread(e));
            d.fate.Stays? ==> (FailsToRead(d, true, e.socketIn) <==> Ends(e.socketIn))
  {
    UpToSocketRead(c, e);
    var d := Turn(c, Unread(e));
    hide Turn, Running;
    if d.fate.Stays? && e.socketIn.Some? {
      assert d.net.Room() / HANDLE_BYTES >= 1 && d.dev.Room() >= 1;
      assert SocketTry(d) >= 1;
      hide SocketTry;
    }
  }

  lemma QuietTransfers(c: Course, asked: Asked, e: Events)
    requires Running(c) && !e.TouchesNetwork()
    ensures Transfers(c, asked, e).net == c.net
  {
    hide Running;
  }

  /** A poll stops the program only if the same iteration moved bytes to or from the network or from the device. */
  lemma QuietPollsFit(c: Course, e: Events)
    requires Running(c) && c.fate.Stays? && !e.TouchesNetwork()
    ensures var t := Turn(c, Unpolled(e)); !NoticeOverfills(t, AskedAt(c).modem && e.polled)
  {
    BeforePoll(c, e);
    LinesLeaveTheRest(c, e.lines);
    QuietTransfers(Happen(c, LinesAre(e.lines)), AskedAt(c), e);
    NoticesAreShort(Turn(c, Unpolled(e)).server);
    hide Running, Happen, Turn, Transfers, Notify;
  }

  // ---------- Blocked reads ----------

  lemma BlockedStepIsNothing(c: Course, asked: bool)
    requires Running(c) && !Narrow(c.server.platform)
    ensures DeviceInStep(c, asked, Some(ReadBlocks)) == DeviceInStep(c, asked, None)
    ensures SocketInStep(c, asked, Some(ReadBlocks)) == SocketInStep(c, asked, None)
  {
    hide Running;
  }

  /** Where ssize_t is wide, a blocked read is as if select had not reported it. */
  lemma BlockedReadIsNothingWide(c: Course, e: Events)
    requires Running(c) && c.fate.Stays? && !Narrow(c.server.platform)
    ensures e.deviceIn == Some(ReadBlocks) ==> Turn(c, e) == Turn(c, e.(deviceIn := None))
    ensures e.socketIn == Some(ReadBlocks) ==> Turn(c, e) == Turn(c, e.(socketIn := None))
  {
    var asked := AskedAt(c);
    LinesLeaveTheRest(c, e.lines);
    BlockedStepIsNothing(Happen(c, LinesAre(e.lines)), asked.deviceIn);
    UpToSocketRead(c, e);
    UpToSocketRead(c, e.(socketIn := None));
    BlockedStepIsNothing(Turn(c, Unread(e)), asked.socketIn);
    hide AskedAt, Running, Happen, DeviceInStep, DeviceOutStep, SocketOutStep, SocketInStep, PollStep;
  }

  lemma {:induction false} EscapingNeverShrinks(binary: bool, last: byte, data: seq<byte>)
    ensures |EscWriteAll(binary, last, data)| >= |data|
    decreases |data|
  {
    if data != [] {
      EscapingNeverShrinks(binary, data[0], data[1..]);
    }
  }

  /**
   * After a blocked device read the narrow loop cannot come to its end: whatever memory holds, so many bytes never
   * fit the buffer.
   */
  lemma OverrunOverfills(binary: bool, last: byte, memory: seq<byte>)
    requires |memory| == MINUS_ONE
    ensures |EscWriteAll(binary, last, memory)| > CAPACITY
  {
    EscapingNeverShrinks(binary, last, memory);
  }

  /**
   * After a blocked socket read it may fill neither buffer: inside a signature any number of bytes but IAC are
   * swallowed. Only memory comes to an end then.
   */
  lemma {:induction false} SignatureSwallows(s: Server, r: Receiver, memory: seq<byte>)
    requires Sound(s, r) && r.esc == Receiving && r.sig == Normal && IsSignature(r.command)
    requires IAC !in memory
    ensures var out := RedirectAll(s, r, memory);
            out == Redirected(s, out.receiver, [], [], []) && out.receiver.esc == Receiving
    decreases |memory|
  {
    hide HandleIACCommand;
    if memory != [] {
      var c, rest := memory[0], memory[1..];
      assert c in memory && forall b <- rest :: b in memory;
      var one := EscRedirectChar(s, r, c);
      assert one == Redirected(s, r.(command := Appended(r.command, c), last := c), [], [], []);
      SignatureSwallows(s, one.receiver, rest);
    }
  }

  // ---------- When the account is kept ----------

  /**
   * The iteration has a blocked write, or a notification that does not fit: nothing else makes what was accepted
   * and what waits differ from what is due.
   */
  predicate Loses(c: Course, e: Events)
    requires Running(c)
  {
    var asked := AskedAt(c);
    c.fate.Stays?
    && (|| (asked.deviceOut && e.deviceOut == Some(WriteBlocks))
        || (asked.socketOut && e.socketOut == Some(WriteBlocks))
        || NoticeOverfills(Turn(c, Unpolled(e)), asked.modem && e.polled))
  }

  lemma TransfersIntactExactlyWhen(c: Course, asked: Asked, e: Events)
    requires Running(c) && c.fate.Stays? && Transfers(c, asked, e).fate.Stays?
    ensures Transfers(c, asked, e).intact
            <==> c.intact && !(asked.deviceOut && e.deviceOut == Some(WriteBlocks))
                 && !(asked.socketOut && e.socketOut == Some(WriteBlocks))
  {
    hide Handle, Running, Fails;
  }

  /** If the connection goes on, its account is whole exactly when it was and nothing was lost. */
  lemma IntactAfterTurnExactlyWhen(c: Course, e: Events)
    requires Running(c) && c.fate.Stays? && Turn(c, e).fate.Stays?
    ensures Turn(c, e).intact <==> c.intact && !Loses(c, e)
  {
    LinesLeaveTheRest(c, e.lines);
    BeforePoll(c, e);
    var c0 := Happen(c, LinesAre(e.lines));
    var t := Transfers(c0, AskedAt(c), e);
    assert c0.intact == c.intact;
    assert t.fate.Stays?;
    TransfersIntactExactlyWhen(c0, AskedAt(c), e);
    hide Handle, AskedAt, Running, Notify, Transfers;
  }

  /** A connection that goes on throughout these iterations. */
  ghost predicate Lasts(c: Course, events: seq<Events>)
    requires Running(c)
    decreases |events|
  {
    c.fate.Stays? && (events != [] ==> Lasts(Iteration(c, events[0]), events[1..]))
  }

  ghost predicate NeverLoses(c: Course, events: seq<Events>)
    requires Running(c)
    decreases |events|
  {
    events != [] ==> !Loses(c, events[0]) && NeverLoses(Iteration(c, events[0]), events[1..])
  }

  /** Over a whole connection: the account is kept exactly when no write was blocked and no notification overfilled. */
  lemma {:induction false} IntactExactlyWhenNothingIsLost(c: Course, events: seq<Events>)
    requires Running(c) && Lasts(c, events)
    ensures Iterations.Iterations(c, events).intact <==> c.intact && NeverLoses(c, events)
    decreases |events|
  {
    hide Turn, Running, Loses;
    if events != [] {
      IntactAfterTurnExactlyWhen(c, events[0]);
      IntactExactlyWhenNothingIsLost(Iteration(c, events[0]), events[1..]);
    }
  }

  /** Over any number of connections, too, nothing else breaks an account. */
  lemma {:induction false} IntactUnlessSomethingIsLost(c: Course, events: seq<Events>)
    requires Running(c) && (c.fate.Stays? ==> c.intact) && NeverLoses(c, events)
    ensures var d := Iterations.Iterations(c, events); d.fate.Stays? ==> d.intact
    decreases |events|
  {
    hide Turn, Running, Loses;
    if events != [] {
      if c.fate.Stays? && Turn(c, events[0]).fate.Stays? {
        IntactAfterTurnExactlyWhen(c, events[0]);
      }
      IntactUnlessSomethingIsLost(Iteration(c, events[0]), events[1..]);
    }
  }

  /** Without a blocked write only a poll after moving bytes loses anything, and then only if no assertion stops it. */
  lemma NothingLostUnlessPolled(c: Course, e: Events)
    requires Running(c) && !e.Blocks() && Loses(c, e)
    ensures e.polled && e.TouchesNetwork()
    ensures c.server.platform.asserts && Turn(c, Unpolled(e)).fate.Stays? ==> Turn(c, e).fate.Stops?
  {
    if !e.TouchesNetwork() {
      QuietPollsFit(c, e);
    }
    StopsExactlyWhen(c, e);
    hide Turn, Running, AskedAt, Notify;
  }

  /** With assertions compiled in, only blocked writes break an account: anything else stops the program. */
  lemma {:induction false} IntactUnlessBlocked(c: Course, events: seq<Events>)
    requires Running(c) && (c.fate.Stays? ==> c.intact) && c.server.platform.asserts
    requires forall e <- events :: !e.Blocks()
    ensures var d := Iterations.Iterations(c, events); d.fate.Stays? ==> d.intact
    decreases |events|
  {
    hide Turn, Running, Loses;
    if events != [] {
      var e := events[0];
      assert e in events && forall f <- events[1..] :: f in events;
      IterationKeepsPlatform(c, e);
      if c.fate.Stays? && Turn(c, e).fate.Stays? {
        IntactAfterTurnExactlyWhen(c, e);
        StaysBeforePoll(c, e);
        if Loses(c, e) {
          NothingLostUnlessPolled(c, e);
        }
      }
      IntactUnlessBlocked(Iteration(c, e), events[1..]);
    }
  }

  lemma StaysBeforePoll(c: Course, e: Events)
    requires Running(c) && c.fate.Stays? && Turn(c, e).fate.Stays?
    ensures Turn(c, Unpolled(e)).fate.Stays?
  {
    BeforePoll(c, e);
    hide AskedAt, Happen, Transfers, Running, Notify;
  }

  // ---------- A parser left in the middle ----------

  /** Outside a command, or inside a sub-negotiation. */
  predicate NoOptionBegun(r: Receiver) {
    r.esc == Normal || (r.esc == Receiving && |r.command| >= 2 && r.command[1] == SB)
  }

  /** Then no byte but IAC can begin or complete an option command. */
  lemma PlainByteLeavesOptions(s: Server, r: Receiver, c: byte)
    requires Sound(s, r) && NoOptionBegun(r) && c != IAC
    ensures var out := EscRedirectChar(s, r, c); out.server.options == s.options && NoOptionBegun(out.receiver)
  {
    var step := Receive(r, s.ReceivesBinary(), c);
    ReceiveKeepsValid(r, s.ReceivesBinary(), c);
    hide HandleIACCommand;
    if step.command.Some? {
      HandlingLeaves(s, step.command.value);
    }
  }

  /** IAC in the middle of a command ends an option command for option 255, or is part of what it is in. */
  lemma IacInTheMiddle(s: Server, r: Receiver)
    requires Sound(s, r) && r.esc != Normal
    ensures var out := EscRedirectChar(s, r, IAC);
            out.server.ReceivesBinary() == s.ReceivesBinary() && NoOptionBegun(out.receiver)
  {
    var step := Receive(r, s.ReceivesBinary(), IAC);
    ReceiveKeepsValid(r, s.ReceivesBinary(), IAC);
    if step.command.Some? {
      OtherOptionsLeaveBinary(s, step.command.value);
      hide HandleIACCommand;
    }
  }

  lemma OtherOptionsLeaveBinary(s: Server, command: seq<byte>)
    requires ValidPlatform(s.platform) && Dispatchable(command)
    requires command[1] == SB || command[2] != TRANSMIT_BINARY
    ensures HandleIACCommand(s, command).server.ReceivesBinary() == s.ReceivesBinary()
  {
    HandlingLeaves(s, command);
    hide HandleCPCCommand;
  }

  /**
   * The parser's state outlives a connection. A new client's first command turns binary mode on exactly when the
   * last client left the parser outside any command; otherwise its bytes finish, or are swallowed by, what that
   * client began.
   */
  lemma WillBinaryIsHeardExactlyWhen(s: Server, r: Receiver)
    requires Sound(s, r) && s.options == InitialOptions()
    ensures RedirectAll(s, r, [IAC, WILL, TRANSMIT_BINARY]).server.ReceivesBinary() <==> r.esc == Normal
  {
    if r.esc == Normal {
      BinaryModeStarts(s, r);
    } else {
      hide RedirectAll, EscRedirectChar, InitialOptions;
      assert [IAC, WILL, TRANSMIT_BINARY] == [IAC] + [WILL] + [TRANSMIT_BINARY];
      var first := EscRedirectChar(s, r, IAC);
      RedirectOne(s, r, IAC);
      IacInTheMiddle(s, r);
      RedirectAppend(s, r, [IAC], [WILL]);
      var second := EscRedirectChar(first.server, first.receiver, WILL);
      RedirectOne(first.server, first.receiver, WILL);
      PlainByteLeavesOptions(first.server, first.receiver, WILL);
      RedirectAppend(s, r, [IAC] + [WILL], [TRANSMIT_BINARY]);
      RedirectOne(second.server, second.receiver, TRANSMIT_BINARY);
      PlainByteLeavesOptions(second.server, second.receiver, TRANSMIT_BINARY);
      BinaryStartsOff(s);
    }
  }

  lemma BinaryStartsOff(s: Server)
    requires s.options == InitialOptions()
    ensures !s.ReceivesBinary()
  {}
}
