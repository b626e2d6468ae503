/** Whole runs of a new redirector: a first client served to the end, and clients and programs lost. */
module Scenarios {
  import opened Wrappers
  import opened Bitwise
  import opened Ports
  import opened ModemView
  import opened RingBuffers
  import opened Telnet
  import opened TelnetStreams
  import opened Replies
  import opened Connections
  import opened Iterations
  import opened Outcomes
  import opened Redirectors

  const NO_LINES := Lines(false, false, false, false, false, false)
  const CARRIER := NO_LINES.(car := true)
  const NOTHING := Events(None, None, None, None, false, None, false, NO_LINES)

  /** A client connects and the port opens. */
  function Connect(found: Port): Events { NOTHING.(client := true, found := Some(found)) }

  /** The device has sent n times the same byte. */
  function DeviceSends(b: byte, n: nat): Events { NOTHING.(deviceIn := Some(Waiting(seq(n, _ => b)))) }

  // ---------- The first client ----------

  lemma UnopenedRuns(platform: Platform, found: Port)
    requires ValidPlatform(platform)
    ensures Running(Unopened(platform))
    ensures var c := Iteration(Unopened(platform), Connect(found));
            && c.fate.Stays? && c.intact && c.tuned.esc == Normal && c.receiver.esc == Normal
  {}

  /** What the first client of a program finds: everything as it starts, the flow on and every line shown. */
  lemma FirstClientFinds(platform: Platform, found: Port)
    requires ValidPlatform(platform)
    ensures var c := Iteration(Unopened(platform), Connect(found));
            && c.fate.Stays? && c.net == Gauge(18, 0) && c.dev == Gauge(0, 0)
            && c.receiver == Receiver(Normal, Normal, [], 0)
            && c.server == Server(platform, InitialOptions(), 0, found, 0, 255, 0, false, true)
  {
    assert ValidReceiver(Receiver(Normal, Normal, [], NUL));
    hide InitialOptions;
  }

  lemma OneOfMore(c: Course, events: seq<Events>)
    requires Running(c) && c.fate.Stays? && events != []
    ensures var next := Iteration(c, events[0]);
            && next.tuned == c.tuned && (Lasts(next, events[1..]) <==> Lasts(c, events))
            && Iterations.Iterations(next, events[1..]) == Iterations.Iterations(c, events)
  {
    hide Turn, Running;
  }

  lemma NoMore(c: Course)
    requires Running(c)
    ensures Iterations.Iterations(c, []) == c && (c.fate.Stays? ==> Lasts(c, []))
  {}

  lemma FollowingShows(r: Redirector, c: Course)
    requires r.Follows(c) && !c.fate.Stops?
    ensures (r.device <==> c.fate.Stays?) && (r.device ==> r.Connected())
  {
    hide Balances;
  }

  lemma FirstClientIsServed(r: Redirector, c: Course, items: seq<Item>)
    requires r.Follows(c) && c.fate.Stays? && c.tuned.esc == Normal
    requires forall item <- items :: Sendable(item) && Survives(item)
    ensures r.Connected() && r.book.receiver.esc == Normal && r.book.intact == c.intact
    ensures r.book.intact ==>
              var wire := [IAC, WILL, TRANSMIT_BINARY] + WireOfAll(items);
              && (NetBytes(r.book.events) <= wire ==> r.book.device + r.toDev.Contents() <= DataOfAll(items))
              && (NetBytes(r.book.events) == wire ==> r.book.device + r.toDev.Contents() == DataOfAll(items))
  {
    hide Balances, Sendable, Survives, NetBytes;
    if r.book.intact && NetBytes(r.book.events) <= [IAC, WILL, TRANSMIT_BINARY] + WireOfAll(items) {
      ClientDataReachesDevice(r.book, r.Now(), items);
    }
  }

  /** Iterations for as long as a client is connected. */
  method ServeWhileConnected(r: Redirector, events: seq<Events>, ghost c: Course)
    returns (served: nat, aborted: bool, ghost now: Course)
    requires c.fate.Stays? && Running(c) && r.Follows(c)
    modifies r, r.iacCommand, r.port, r.tnstate, r.toNet, r.toNet.bytes, r.toDev, r.toDev.bytes
    ensures served <= |events| && Running(now) && r.Follows(now) && (aborted <==> now.fate.Stops?)
    ensures now.fate.Stays? ==>
              && served == |events| && Lasts(c, events) && now == Iterations.Iterations(c, events)
              && now.tuned == c.tuned
  {
    hide Running, Iteration, Iterations.Iterations, Lasts;
    hide Redirector.Connected, Redirector.Disconnected, Redirector.Follows;
    now := c;
    served, aborted := 0, false;
    FollowingShows(r, c);
    assert events[0..] == events;
    while served < |events| && !aborted && r.device
      invariant served <= |events| && Running(now) && r.Follows(now) && (aborted <==> now.fate.Stops?)
      invariant Iterations.Iterations(now, events[served..]) == Iterations.Iterations(c, events)
      invariant now.fate.Stays? ==> now.tuned == c.tuned
      invariant Lasts(now, events[served..]) ==> Lasts(c, events)
      invariant !aborted ==> (r.device <==> now.fate.Stays?)
    {
      assert events[served..][1..] == events[served + 1..];
      OneOfMore(now, events[served..]);
      aborted := r.Iterate(events[served], now);
      now := Iteration(now, events[served]);
      if !aborted {
        FollowingShows(r, now);
      }
      served := served + 1;
    }
    NoMore(now);
  }

  /**
   * The first client of a new redirector, served over any events, other clients' attempts included, for as long as
   * it is connected. Once it has turned binary mode on, what is with the device or waits for it is the data it has
   * sent, as far as that has been read; and this account is kept exactly when nothing was lost to a blocked write
   * or an overfilling notification.
   */
  method ServeFirstClient(platform: Platform, found: Port, events: seq<Events>, ghost items: seq<Item>)
    returns (r: Redirector, served: nat, aborted: bool)
    requires ValidPlatform(platform)
    requires forall item <- items :: Sendable(item) && Survives(item)
    ensures served <= |events|
    ensures !aborted && r.device ==>
              served == |events| && r.Connected() && r.book.receiver.esc == Normal
    ensures Running(Iteration(Unopened(platform), Connect(found)))
    ensures !aborted && r.device ==>
              (r.book.intact <==> NeverLoses(Iteration(Unopened(platform), Connect(found)), events))
    ensures !aborted && r.device && r.book.intact ==>
              var wire := [IAC, WILL, TRANSMIT_BINARY] + WireOfAll(items);
              && (NetBytes(r.book.events) <= wire ==> r.book.device + r.toDev.Contents() <= DataOfAll(items))
              && (NetBytes(r.book.events) == wire ==> r.book.device + r.toDev.Contents() == DataOfAll(items))
  {
    r := new Redirector(platform);
    ghost var c0 := Unopened(platform);
    UnopenedRuns(platform, found);
    hide Running, Iteration, Iterations.Iterations, Unopened, NeverLoses, Lasts, Sendable, Survives, NetBytes;
    hide Redirector.Connected, Redirector.Disconnected, Redirector.Follows;
    aborted := r.Iterate(Connect(found), c0);
    ghost var c, now := Iteration(c0, Connect(found)), c0;
    served, aborted, now := ServeWhileConnected(r, events, c);
    if !aborted {
      FollowingShows(r, now);
    }
    if !aborted && r.device {
      IntactExactlyWhenNothingIsLost(c, events);
      FirstClientIsServed(r, now, items);
    }
  }

  // ---------- Filling the buffer towards the network ----------

  lemma {:induction false} RepeatedByteEscapes(binary: bool, last: byte, b: byte, n: nat)
    requires last != CR && b != CR
    ensures |EscWriteAll(binary, last, seq(n, _ => b))| == if b == IAC then 2 * n else n
    ensures n > 0 ==> LastOf(last, seq(n, _ => b)) == b
    decreases n
  {
    if n > 0 {
      var bytes: seq<byte> := seq(n, _ => b);
      assert bytes[1..] == seq(n - 1, _ => b);
      RepeatedByteEscapes(binary, b, b, n - 1);
    }
  }

  /** A connection with n bytes waiting for the network, none for the device, and nothing special about it. */
  ghost predicate Filling(c: Course, n: nat) {
    && c.fate.Stays? && Running(c) && c.net == Gauge(n, 0) && c.dev == Gauge(0, 0)
    && c.toNetwork == 0 && c.server.inputFlow && c.server.last != CR
    && c.server.modemState == 0 && c.server.modemStateMask == 255
  }

  lemma DeviceFills(c: Course, n: nat, b: byte, k: nat, lines: Lines)
    requires Filling(c, n) && b != CR && 1 <= k <= READ_SIZE && n + 2 * k <= CAPACITY
    ensures var d := Turn(c, DeviceSends(b, k).(lines := lines));
            && Filling(d, n + if b == IAC then 2 * k else k) && d.server.port.lines.car == lines.car
            && d.server.platform == c.server.platform
  {
    var c0 := Happen(c, LinesAre(lines));
    LinesLeaveTheRest(c, lines);
    RepeatedByteEscapes(c.server.SendsBinary(), c.server.last, b, k);
    var bytes: seq<byte> := seq(k, _ => b);
    assert DeviceTry(c0) >= k;
    assert bytes[..k] == bytes;
    assert Taken(Waiting(bytes), DeviceTry(c0)) == bytes;
    assert bytes[0] == b;
    hide EscWriteAll, LastOf;
  }

  lemma JustOpened(platform: Platform, found: Port)
    requires ValidPlatform(platform)
    ensures var c := Iteration(Unopened(platform), Connect(found));
            Filling(c, 18) && c.server.platform == platform
  {}

  /** Four iterations, each as far as the one before lets it. */
  lemma FourIterations(c0: Course, e1: Events, e2: Events, e3: Events, e4: Events)
    requires Running(c0)
    ensures Iterations.Iterations(c0, [e1, e2, e3, e4])
         == Iteration(Iteration(Iteration(Iteration(c0, e1), e2), e3), e4)
  {
    hide Iteration, Running;
    var c1 := Iteration(c0, e1);
    var c2 := Iteration(c1, e2);
    var c3 := Iteration(c2, e3);
    assert [e1, e2, e3, e4][1..] == [e2, e3, e4] && [e2, e3, e4][1..] == [e3, e4] && [e3, e4][1..] == [e4];
    assert [e4][1..] == [];
    assert Iterations.Iterations(c3, [e4]) == Iterations.Iterations(Iteration(c3, e4), []);
    assert Iterations.Iterations(c2, [e3, e4]) == Iterations.Iterations(c3, [e4]);
    assert Iterations.Iterations(c1, [e2, e3, e4]) == Iterations.Iterations(c2, [e3, e4]);
  }

  // ---------- A client lost for want of room ----------

  /** The device has sent 502 more bytes, and so has the client one. */
  const BOTH_SEND: Events := DeviceSends(65, 502).(socketIn := Some(Waiting([65])))

  lemma RoomIsGone(c: Course)
    requires Filling(c, 1042)
    ensures Turn(c, BOTH_SEND).fate.Drops?
  {
    DeviceFills(c, 1042, 65, 502, NO_LINES);
    DropsExactlyWhen(c, BOTH_SEND);
    assert Unread(BOTH_SEND) == DeviceSends(65, 502);
    hide Turn;
  }

  /**
   * Nothing fails, and yet a client that has sent a byte is dropped: the device's bytes take the room that the
   * loop head had found for it.
   */
  method ClientIsLostForWantOfRoom(platform: Platform, found: Port) returns (r: Redirector, aborted: bool)
    requires ValidPlatform(platform)
    ensures !aborted && r.Disconnected()
  {
    r := new Redirector(platform);
    ghost var c0 := Unopened(platform);
    UnopenedRuns(platform, found);
    JustOpened(platform, found);
    ghost var c1 := Iteration(c0, Connect(found));
    DeviceFills(c1, 18, 65, 512, NO_LINES);
    DeviceFills(Turn(c1, DeviceSends(65, 512)), 530, 65, 512, NO_LINES);
    FourIterations(c0, Connect(found), DeviceSends(65, 512), DeviceSends(65, 512), BOTH_SEND);
    RoomIsGone(Turn(Turn(c1, DeviceSends(65, 512)), DeviceSends(65, 512)));
    hide Turn, Unopened, Running, Admit;
    aborted := r.Run([Connect(found), DeviceSends(65, 512), DeviceSends(65, 512), BOTH_SEND], c0);
  }

  // ---------- A notification that does not fit ----------

  /** The device has sent four more IACs, and its carrier has come up. */
  const CARRIER_RISES: Events := DeviceSends(IAC, 4).(polled := true, lines := CARRIER)

  lemma CarrierIsNoticed(s: Server)
    requires s.modemState == 0 && s.modemStateMask == 255 && s.port.lines.car
    ensures |Notify(s).wire| >= 6
  {
    var lines := s.port.lines;
    MaskedStateIsMaskedLines(lines, 0, 255);
    NothingMasked(255);
    BitOfAndBytes(LineByte(lines), 255, 7);
    BitOfLine(lines, 7);
    DropOfZero(7);
    assert Drop(15, 3) == 1;
    assert Drop(63, 5) == 1;
    assert Drop(255, 7) == 1;
    hide AndBytes, LineByte, ModemStateOf, EscWriteAll;
  }

  lemma PollComesLast(c: Course, e: Events)
    requires Running(c) && c.fate.Stays?
    ensures Turn(c, e) == PollStep(Turn(c, Unpolled(e)), AskedAt(c).modem && e.polled)
  {
    BeforePoll(c, e);
    hide Transfers, Happen, Running, AskedAt, PollStep;
  }

  lemma CarrierOverfills(c: Course)
    requires Filling(c, 2038)
    ensures var d := Turn(c, CARRIER_RISES);
            if c.server.platform.asserts then d.fate.Stops?
            else d.fate.Stays? && Running(d) && !d.intact && d.net.waiting < BYTE_COMMAND_BYTES && d.toNetwork == 0
  {
    DeviceFills(c, 2038, IAC, 4, CARRIER);
    var t := Turn(c, Unpolled(CARRIER_RISES));
    assert Unpolled(CARRIER_RISES) == DeviceSends(IAC, 4).(lines := CARRIER);
    CarrierIsNoticed(t.server);
    NoticesAreShort(t.server);
    PollComesLast(c, CARRIER_RISES);
    assert AskedAt(c).modem;
    hide Turn, Notify, Handle, AskedAt;
  }

  lemma LittleIsLeft(r: Redirector, c: Course)
    requires r.Follows(c) && c.fate.Stays? && c.net.waiting < BYTE_COMMAND_BYTES && c.toNetwork == 0
    ensures r.book.network == [] && |r.toNet.Contents()| < BYTE_COMMAND_BYTES && r.book.intact == c.intact
    ensures Sound(r.book.server, r.book.receiver) && r.toNet.Contents() != DueNetwork(r.book)
  {
    hide Replay, Sound;
  }

  /**
   * Nothing fails and no write is blocked, and yet: the room the loop head found for a notification is gone by the
   * poll, so an assertion stops the program, or without assertions nearly everything due to the client is lost.
   */
  method PollStopsOrLoses(platform: Platform, found: Port) returns (r: Redirector, aborted: bool)
    requires ValidPlatform(platform)
    ensures aborted <==> platform.asserts
    ensures !aborted ==> r.Connected() && !r.book.intact && r.book.network == []
    ensures !aborted ==> |r.toNet.Contents()| < BYTE_COMMAND_BYTES && r.toNet.Contents() != DueNetwork(r.book)
  {
    r := new Redirector(platform);
    ghost var c0 := Unopened(platform);
    UnopenedRuns(platform, found);
    JustOpened(platform, found);
    ghost var c1 := Iteration(c0, Connect(found));
    DeviceFills(c1, 18, IAC, 512, NO_LINES);
    ghost var c2 := Turn(c1, DeviceSends(IAC, 512));
    DeviceFills(c2, 1042, IAC, 498, NO_LINES);
    ghost var c3 := Turn(c2, DeviceSends(IAC, 498));
    FourIterations(c0, Connect(found), DeviceSends(IAC, 512), DeviceSends(IAC, 498), CARRIER_RISES);
    CarrierOverfills(c3);
    hide Turn, Unopened, Running, Admit, Redirector.Follows;
    aborted := r.Run([Connect(found), DeviceSends(IAC, 512), DeviceSends(IAC, 498), CARRIER_RISES], c0);
    if !aborted {
      FollowingShows(r, Turn(c3, CARRIER_RISES));
      LittleIsLeft(r, Turn(c3, CARRIER_RISES));
    }
  }

  // ---------- A program stopped at a blocked read ----------

  /** A first read from the device that would block stops the program exactly where ssize_t is narrow. */
  method BlockedReadStopsExactlyWhenNarrow(platform: Platform, found: Port) returns (r: Redirector, aborted: bool)
    requires ValidPlatform(platform)
    ensures aborted <==> Narrow(platform)
    ensures !aborted ==> r.Connected()
  {
    r := new Redirector(platform);
    ghost var c0 := Unopened(platform);
    ghost var blocked := NOTHING.(deviceIn := Some(ReadBlocks));
    UnopenedRuns(platform, found);
    JustOpened(platform, found);
    hide Running, Unopened, Turn, Admit, Filling;
    aborted := r.Iterate(Connect(found), c0);
    ghost var c := Iteration(c0, Connect(found));
    BlockedReadDecides(c);
    aborted := r.Iterate(NOTHING.(deviceIn := Some(ReadBlocks)), c);
  }

  lemma BlockedReadDecides(c: Course)
    requires Filling(c, 18)
    ensures Turn(c, NOTHING.(deviceIn := Some(ReadBlocks))).fate
         == if Narrow(c.server.platform) then Stops else Stays
  {
    var e := NOTHING.(deviceIn := Some(ReadBlocks));
    StopsExactlyWhen(c, e);
    DropsExactlyWhen(c, e);
    assert AskedAt(c).deviceIn;
    hide Turn, Running, Notify;
  }

  // ---------- A second client that is not heard ----------

  function ClientSends(bytes: seq<byte>): Events { NOTHING.(socketIn := Some(Waiting(bytes))) }

  /** A connection whose offers still wait, and nothing else. */
  ghost predicate Fresh(c: Course) {
    c.fate.Stays? && Running(c) && c.net == Gauge(18, 0) && c.dev == Gauge(0, 0)
  }

  lemma ClientIsRead(c: Course, bytes: seq<byte>)
    requires Fresh(c) && 1 <= |bytes| <= 3
    ensures Turn(c, ClientSends(bytes)) == Happen(Happen(c, LinesAre(NO_LINES)), FromNet(bytes))
  {
    var c0 := Happen(c, LinesAre(NO_LINES));
    LinesLeaveTheRest(c, NO_LINES);
    assert SocketTry(c0) == 3 && bytes[..|bytes|] == bytes;
    assert Taken(Waiting(bytes), SocketTry(c0)) == bytes;
    hide Handle;
  }

  lemma ClientLeaves(c: Course)
    requires Running(c) && c.fate.Stays? && AskedAt(c).socketIn
    ensures var d := Turn(c, ClientSends([])); d.fate.Drops? && d.receiver == c.receiver
  {
    LinesLeaveTheRest(c, NO_LINES);
    hide Running, AskedAt;
  }

  /** The first client's only byte begins a command. */
  lemma FirstByteIsHeld(c: Course)
    requires Fresh(c) && c.receiver.esc == Normal
    ensures var d := Turn(c, ClientSends([IAC]));
            d.fate.Stays? && Running(d) && AskedAt(d).socketIn && d.receiver.esc == Received
  {
    ClientIsRead(c, [IAC]);
    var c0 := Happen(c, LinesAre(NO_LINES));
    LinesLeaveTheRest(c, NO_LINES);
    QuietStep(c0.server, c0.receiver, IAC);
    hide Turn, RedirectAll, HandleIACCommand, Sound;
  }

  lemma LinesHappen(c: Course, lines: Lines)
    requires Running(c)
    ensures var d := Happen(c, LinesAre(lines));
            && d.receiver == c.receiver && d.server.options == c.server.options && d.fate == c.fate
            && d.events == c.events + [LinesAre(lines)]
  {}

  lemma NetHappens(c: Course, bytes: seq<byte>)
    requires Running(c)
    ensures var d := Happen(c, FromNet(bytes));
            && d.server == RedirectAll(c.server, c.receiver, bytes).server && d.fate == c.fate
            && d.events == c.events + [FromNet(bytes)]
  {
    hide RedirectAll, Sound;
  }

  lemma WillBinaryIsLost(c: Course)
    requires Fresh(c) && c.receiver.esc != Normal && c.server.options == InitialOptions() && c.events == []
    ensures var d := Turn(c, ClientSends([IAC, WILL, TRANSMIT_BINARY]));
            && d.fate.Stays? && Running(d) && !d.server.ReceivesBinary()
            && d.events == [LinesAre(NO_LINES), FromNet([IAC, WILL, TRANSMIT_BINARY])]
  {
    hide Turn, RedirectAll, InitialOptions, Happen;
    ClientIsRead(c, [IAC, WILL, TRANSMIT_BINARY]);
    LinesHappen(c, NO_LINES);
    var c0 := Happen(c, LinesAre(NO_LINES));
    NetHappens(c0, [IAC, WILL, TRANSMIT_BINARY]);
    WillBinaryIsHeardExactlyWhen(c0.server, c0.receiver);
    assert [] + [LinesAre(NO_LINES)] + [FromNet([IAC, WILL, TRANSMIT_BINARY])]
        == [LinesAre(NO_LINES), FromNet([IAC, WILL, TRANSMIT_BINARY])];
  }

  lemma SecondIsFresh(c: Course, found: Port)
    requires Running(c) && c.fate.Drops?
    ensures var d := Iteration(c, Connect(found));
            && Fresh(d) && d.receiver == c.receiver && d.server.options == InitialOptions() && d.events == []
  {
    hide InitialOptions;
  }

  lemma FollowsEvents(r: Redirector, c: Course)
    requires r.Follows(c) && c.fate.Stays?
    ensures r.Connected() && r.book.events == c.events && r.ServerView() == c.server
  {
    hide Balances;
  }

  lemma NetBytesOfTwo(lines: Lines, bytes: seq<byte>)
    ensures NetBytes([LinesAre(lines), FromNet(bytes)]) == bytes
  {
    var events := [LinesAre(lines), FromNet(bytes)];
    assert events[..1] == [LinesAre(lines)] && events[..1][..0] == [];
    assert NetBytes(events[..1]) == NetBytes(events[..1][..0]) + [];
  }

  /**
   * A client sends one byte, IAC, and leaves; the next one's first command is WILL TRANSMIT-BINARY, and the server
   * never learns of it.
   */
  method SecondClientIsNotHeard(platform: Platform, found: Port, later: Port) returns (r: Redirector, aborted: bool)
    requires ValidPlatform(platform)
    ensures !aborted && r.Connected() && NetBytes(r.book.events) == [IAC, WILL, TRANSMIT_BINARY]
    ensures !r.ServerView().ReceivesBinary()
  {
    r := new Redirector(platform);
    ghost var c0 := Unopened(platform);
    UnopenedRuns(platform, found);
    JustOpened(platform, found);
    hide Turn, Admit, Unopened, Running, Filling, Redirector.Follows;
    aborted := r.Iterate(Connect(found), c0);
    ghost var c1 := Iteration(c0, Connect(found));
    FirstByteIsHeld(c1);
    aborted := r.Iterate(ClientSends([IAC]), c1);
    ghost var c2 := Turn(c1, ClientSends([IAC]));
    ClientLeaves(c2);
    aborted := r.Iterate(ClientSends([]), c2);
    ghost var c3 := Turn(c2, ClientSends([]));
    SecondIsFresh(c3, later);
    aborted := r.Iterate(Connect(later), c3);
    ghost var c4 := Iteration(c3, Connect(later));
    WillBinaryIsLost(c4);
    aborted := r.Iterate(ClientSends([IAC, WILL, TRANSMIT_BINARY]), c4);
    FollowsEvents(r, Turn(c4, ClientSends([IAC, WILL, TRANSMIT_BINARY])));
    NetBytesOfTwo(NO_LINES, [IAC, WILL, TRANSMIT_BINARY]);
  }
}
