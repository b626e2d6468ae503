/** One connection as a function of what happened to it: the bytes read on either side and the lines polled. */
module Connections {
  import opened Bitwise
  import opened Ports
  import opened ModemView
  import opened Telnet
  import opened TelnetStreams

  datatype Event = FromDevice(bytes: seq<byte>) | FromNet(bytes: seq<byte>) | LinesAre(lines: Lines) | Polled

  /** Bytes read from the device, escaped for the network. */
  function Forward(s: Server, bytes: seq<byte>): Did {
    Did(s.(last := LastOf(s.last, bytes)), EscWriteAll(s.SendsBinary(), s.last, bytes))
  }

  /** A poll of the modem lines, with the notification it may cause. */
  function Notify(s: Server): Did {
    var poll := PollLines(s.modemState, s.modemStateMask, s.port.lines);
    var s' := s.(modemState := poll.state);
    if poll.notice.Some? then SendReply(s', NOTIFY_MODEMSTATE, [poll.notice.value]) else Did(s', [])
  }

  function Handle(s: Server, r: Receiver, event: Event): (out: Redirected)
    requires Sound(s, r)
    ensures Sound(out.server, out.receiver)
  {
    match event
    case FromDevice(bytes) => var did := Forward(s, bytes); Redirected(did.server, r, did.wire, [], [])
    case FromNet(bytes) => RedirectAll(s, r, bytes)
    case LinesAre(lines) => Redirected(s.(port := s.port.(lines := WithInputs(s.port.lines, lines))), r, [], [], [])
    case Polled => var did := Notify(s); Redirected(did.server, r, did.wire, [], [])
  }

  /** Everything that these events make of the state and of the two output streams. */
  function Replay(s: Server, r: Receiver, events: seq<Event>): (out: Redirected)
    requires Sound(s, r)
    ensures Sound(out.server, out.receiver)
    decreases |events|
  {
    if events == [] then Redirected(s, r, [], [], [])
    else
      var n := |events| - 1;
      var before := Replay(s, r, events[..n]);
      Then(before, Handle(before.server, before.receiver, events[n]))
  }

  // ---------- Nothing lost, added or reordered ----------

  /**
   * The account of one connection: the state it began with, what happened since, what network and device have
   * accepted, and whether every write so far was accepted at least in part.
   */
  datatype Book = Book(server: Server, receiver: Receiver, events: seq<Event>, network: seq<byte>,
      device: seq<byte>, intact: bool)

  /** An outcome appended to what was waiting. */
  function Extended(was: Redirected, out: Redirected): Redirected {
    Redirected(out.server, out.receiver, was.net + out.net, was.dev + out.dev, [])
  }

  /**
   * now holds the state and the waiting bytes. The state is the events' outcome; what was accepted followed by
   * what waits is, towards the network, the initial offers and then the events' output, and towards the device
   * the events' data.
   */
  ghost predicate Balances(book: Book, now: Redirected) {
    && Sound(book.server, book.receiver)
    && var out := Replay(book.server, book.receiver, book.events);
    && now.server == out.server && now.receiver == out.receiver
    && (book.intact ==>
          book.network + now.net == INITIAL_OFFERS + out.net && book.device + now.dev == out.dev)
  }

  /** What each event adds to what is waiting. */
  lemma EventExtends(now: Redirected, event: Event)
    requires Sound(now.server, now.receiver)
    ensures var next := Extended(now, Handle(now.server, now.receiver, event));
            match event
            case FromDevice(bytes) =>
              var did := Forward(now.server, bytes);
              next == Redirected(did.server, now.receiver, now.net + did.wire, now.dev, [])
            case FromNet(bytes) => next == Extended(now, RedirectAll(now.server, now.receiver, bytes))
            case LinesAre(lines) =>
              var port := now.server.port;
              var s := now.server.(port := port.(lines := WithInputs(port.lines, lines)));
              next == Redirected(s, now.receiver, now.net, now.dev, [])
            case Polled =>
              var did := Notify(now.server);
              next == Redirected(did.server, now.receiver, now.net + did.wire, now.dev, [])
  {
    hide Forward, Notify, RedirectAll, Sound;
    assert now.dev + [] == now.dev && now.net + [] == now.net;
  }

  lemma EventBalances(book: Book, now: Redirected, event: Event)
    requires Balances(book, now)
    ensures Sound(now.server, now.receiver)
    ensures Balances(book.(events := book.events + [event]), Extended(now, Handle(now.server, now.receiver, event)))
  {
    hide Handle, Sound, INITIAL_OFFERS;
    var events := book.events + [event];
    assert events[..|book.events|] == book.events;
    var out := Replay(book.server, book.receiver, book.events);
    var more := Handle(out.server, out.receiver, event);
    assert book.network + (now.net + more.net) == book.network + now.net + more.net;
    assert book.device + (now.dev + more.dev) == book.device + now.dev + more.dev;
    assert INITIAL_OFFERS + (out.net + more.net) == INITIAL_OFFERS + out.net + more.net;
  }

  lemma NetworkAcceptBalances(book: Book, now: Redirected, n: nat)
    requires Balances(book, now) && n <= |now.net|
    ensures Balances(book.(network := book.network + now.net[..n]), now.(net := now.net[n..]))
  {
    hide Replay, Sound, INITIAL_OFFERS;
    assert book.network + now.net[..n] + now.net[n..] == book.network + now.net;
  }

  lemma DeviceAcceptBalances(book: Book, now: Redirected, n: nat)
    requires Balances(book, now) && n <= |now.dev|
    ensures Balances(book.(device := book.device + now.dev[..n]), now.(dev := now.dev[n..]))
  {
    hide Replay, Sound, INITIAL_OFFERS;
    assert book.device + now.dev[..n] + now.dev[n..] == book.device + now.dev;
  }

  /** Once a write was blocked the account is no longer kept, whatever waits. */
  lemma BlockedBalances(book: Book, now: Redirected, next: Redirected)
    requires Balances(book, now) && next.server == now.server && next.receiver == now.receiver
    ensures Balances(book.(intact := false), next)
  {
    hide Replay, Sound;
  }

  /** Everything the device is due. */
  ghost function DueDevice(book: Book): seq<byte>
    requires Sound(book.server, book.receiver)
  {
    Replay(book.server, book.receiver, book.events).dev
  }

  /** Everything the network is due. */
  ghost function DueNetwork(book: Book): seq<byte>
    requires Sound(book.server, book.receiver)
  {
    INITIAL_OFFERS + Replay(book.server, book.receiver, book.events).net
  }

  /** What waits is neither the same nor of the same length after a blocked write. */
  ghost predicate Shifted(was: seq<byte>, now: seq<byte>, capacity: nat) {
    if |was| < capacity then |now| == |was| + 1 && now[1..] == was else now == []
  }

  // ---------- From the client to the device ----------

  /** Everything read from the network. */
  function NetBytes(events: seq<Event>): seq<byte> {
    if events == [] then []
    else
      var n := |events| - 1;
      NetBytes(events[..n]) + if events[n].FromNet? then events[n].bytes else []
  }

  /** How options are answered depends on the options alone. */
  lemma OptionsAlone(s: Server, t: Server, command: seq<byte>)
    requires ValidPlatform(s.platform) && ValidPlatform(t.platform) && Dispatchable(command) && s.options == t.options
    ensures HandleIACCommand(s, command).server.options == HandleIACCommand(t, command).server.options
  {
    HandlingLeaves(s, command);
    HandlingLeaves(t, command);
    hide HandleCPCCommand, Negotiate;
  }

  /** So what the device gets depends on nothing else of the server. */
  lemma OneByteAlone(s: Server, t: Server, r: Receiver, c: byte)
    requires Sound(s, r) && Sound(t, r) && s.options == t.options
    ensures var a, b := EscRedirectChar(s, r, c), EscRedirectChar(t, r, c);
            a.dev == b.dev && a.receiver == b.receiver && a.server.options == b.server.options
  {
    ReceiveKeepsValid(r, s.ReceivesBinary(), c);
    var step := Receive(r, s.ReceivesBinary(), c);
    hide Receive, HandleIACCommand, Dispatchable, ValidReceiver;
    if step.command.Some? {
      OptionsAlone(s, t, step.command.value);
    }
  }

  lemma {:induction false} BytesAlone(s: Server, t: Server, r: Receiver, bytes: seq<byte>)
    requires Sound(s, r) && Sound(t, r) && s.options == t.options
    ensures var a, b := RedirectAll(s, r, bytes), RedirectAll(t, r, bytes);
            a.dev == b.dev && a.receiver == b.receiver && a.server.options == b.server.options
    decreases |bytes|
  {
    hide EscRedirectChar;
    if bytes != [] {
      OneByteAlone(s, t, r, bytes[0]);
      var a, b := EscRedirectChar(s, r, bytes[0]), EscRedirectChar(t, r, bytes[0]);
      BytesAlone(a.server, b.server, a.receiver, bytes[1..]);
    }
  }

  lemma OtherEventsLeaveOptions(s: Server, r: Receiver, event: Event)
    requires Sound(s, r) && !event.FromNet?
    ensures var out := Handle(s, r, event); out.dev == [] && out.receiver == r && out.server.options == s.options
  {
    hide EscWriteAll, PollLines, LastOf;
  }

  /**
   * The device's stream is what the network's bytes alone make of it: however the reads were cut, and whatever
   * was read from the device, polled or replied in between.
   */
  lemma {:induction false} DeviceStreamIsOfNetworkBytes(s: Server, r: Receiver, events: seq<Event>)
    requires Sound(s, r)
    ensures var out, alone := Replay(s, r, events), RedirectAll(s, r, NetBytes(events));
            out.dev == alone.dev && out.receiver == alone.receiver && out.server.options == alone.server.options
    decreases |events|
  {
    hide RedirectAll, Sound;
    if events == [] {
      NothingRedirected(s, r);
    } else {
      var n := |events| - 1;
      DeviceStreamIsOfNetworkBytes(s, r, events[..n]);
      var before, alone := Replay(s, r, events[..n]), RedirectAll(s, r, NetBytes(events[..n]));
      if events[n].FromNet? {
        BytesAlone(before.server, alone.server, alone.receiver, events[n].bytes);
        RedirectAppend(s, r, NetBytes(events[..n]), events[n].bytes);
      } else {
        OtherEventsLeaveOptions(before.server, before.receiver, events[n]);
        assert NetBytes(events) == NetBytes(events[..n]);
        assert before.dev + [] == before.dev;
      }
    }
  }

  lemma BinaryModeStarts(s: Server, r: Receiver)
    requires Sound(s, r) && r.esc == Normal && s.options == InitialOptions()
    ensures var out := RedirectAll(s, r, [IAC, WILL, TRANSMIT_BINARY]);
            Ready(out.server, out.receiver) && out.dev == []
  {
    var command := [IAC, WILL, TRANSMIT_BINARY];
    FixedCommandIsHandled(s, r, command);
    hide RedirectAll, HandleCPCCommand;
  }

  lemma BinaryStreamArrives(s: Server, r: Receiver, items: seq<Item>)
    requires Sound(s, r) && r.esc == Normal && s.options == InitialOptions()
    requires forall item <- items :: Sendable(item) && Survives(item)
    ensures var out := RedirectAll(s, r, [IAC, WILL, TRANSMIT_BINARY] + WireOfAll(items));
            out.dev == DataOfAll(items) && out.receiver.esc == Normal
  {
    var will := [IAC, WILL, TRANSMIT_BINARY];
    BinaryModeStarts(s, r);
    hide RedirectAll, InitialOptions, Sendable, Survives;
    var first := RedirectAll(s, r, will);
    RedirectAppend(s, r, will, WireOfAll(items));
    StreamArrivesExactlyWhenItSurvives(first.server, first.receiver, items);
    assert [] + DataOfAll(items) == DataOfAll(items);
  }

  lemma PrefixArrives(s: Server, r: Receiver, sent: seq<byte>, whole: seq<byte>)
    requires Sound(s, r) && sent <= whole
    ensures RedirectAll(s, r, sent).dev <= RedirectAll(s, r, whole).dev
  {
    hide RedirectAll;
    RedirectAppend(s, r, sent, whole[|sent|..]);
    assert whole == sent + whole[|sent|..];
  }

  /**
   * End to end: once a client has turned binary mode on, the data it sends reaches the device or waits for it, in
   * order, with nothing added, through any interleaving of the two streams and any partial writes: a prefix of it
   * at any moment, and all of it whenever what it sent has been read.
   */
  lemma ClientDataReachesDevice(book: Book, now: Redirected, items: seq<Item>)
    requires Balances(book, now) && book.intact
    requires book.server.options == InitialOptions() && book.receiver.esc == Normal
    requires NetBytes(book.events) <= [IAC, WILL, TRANSMIT_BINARY] + WireOfAll(items)
    requires forall item <- items :: Sendable(item) && Survives(item)
    ensures book.device + now.dev <= DataOfAll(items)
    ensures NetBytes(book.events) == [IAC, WILL, TRANSMIT_BINARY] + WireOfAll(items) ==>
              book.device + now.dev == DataOfAll(items) && now.receiver.esc == Normal
  {
    var s, r, sent := book.server, book.receiver, NetBytes(book.events);
    hide RedirectAll, InitialOptions, NetBytes, Sendable, Survives;
    DeviceStreamIsOfNetworkBytes(s, r, book.events);
    hide Replay;
    BinaryStreamArrives(s, r, items);
    PrefixArrives(s, r, sent, [IAC, WILL, TRANSMIT_BINARY] + WireOfAll(items));
  }
}
