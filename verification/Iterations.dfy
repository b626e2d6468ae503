/**
 * The main loop as a function: what each phase of an iteration makes of the state, of the buffers' fill and of
 * the connection, whatever select reports and however the calls come out.
 */
module Iterations {
  import opened Wrappers
  import opened Bitwise
  import opened Ports
  import opened RingBuffers
  import opened Telnet
  import opened TelnetStreams
  import opened Replies
  import opened Connections

  const READ_SIZE: nat := 512

  // ---------- What the environment decides ----------

  /** What a read or a write comes to: an error, EWOULDBLOCK, or that many bytes at most. */
  datatype Read = ReadFails | ReadBlocks | Waiting(bytes: seq<byte>)
  datatype Write = WriteFails | WriteBlocks | Accepts(n: nat)

  /**
   * What select reports in one iteration, and how the calls it leads to come out: transfers, a new client, the
   * port as the open finds it or a failed open, the modem-state poll, and the lines the peer drives by now.
   */
  datatype Events = Events(
    deviceIn: Option<Read>, deviceOut: Option<Write>, socketOut: Option<Write>, socketIn: Option<Read>,
    client: bool, found: Option<Port>, polled: bool, lines: Lines)
  {
    /** Whether a write of this iteration is blocked. */
    predicate Blocks() { deviceOut == Some(WriteBlocks) || socketOut == Some(WriteBlocks) }

    predicate TouchesNetwork() { deviceIn.Some? || socketOut.Some? || socketIn.Some? }
  }

  function Min(a: nat, b: nat): nat { if a <= b then a else b }

  /** A read takes at most trybytes of the waiting bytes. */
  function Taken(outcome: Read, trybytes: nat): (bytes: seq<byte>)
    ensures |bytes| <= trybytes
  {
    if outcome.Waiting? then outcome.bytes[..Min(|outcome.bytes|, trybytes)] else []
  }

  /** An error or the end of the stream; so too a read of nothing because there is no room. */
  predicate Fails(outcome: Read, trybytes: nat) {
    outcome.ReadFails? || (outcome.Waiting? && Taken(outcome, trybytes) == [])
  }

  /**
   * Where ssize_t has the width of unsigned int, the -1 of a blocked read compares as 4294967295 with the loop
   * index, and the loop over what was read runs on past the read buffer.
   */
  predicate Narrow(platform: Platform) { platform.longSize == 4 }

  // ---------- The course of a connection ----------

  /** Whether the connection goes on, has been dropped, or the program has stopped. */
  datatype Fate = Stays | Drops | Stops

  /**
   * The state, the fill of both buffers, and the account of the connection: the state it opened with, what has
   * happened, how many bytes each side has accepted and whether every write so far was accepted in part.
   */
  datatype Course = Course(
    fate: Fate, server: Server, receiver: Receiver, net: Gauge, dev: Gauge,
    origin: Server, tuned: Receiver, events: seq<Event>, toNetwork: nat, toDevice: nat, intact: bool)

  ghost predicate Running(c: Course) {
    Sound(c.server, c.receiver) && c.net.from < BUFFER_SIZE && c.dev.from < BUFFER_SIZE
  }

  /** An event happens: its output is added to what waits. */
  function Happen(c: Course, event: Event): (next: Course)
    requires Running(c)
    ensures Running(next) && next.fate == c.fate && next.tuned == c.tuned
  {
    var out := Handle(c.server, c.receiver, event);
    c.(server := out.server, receiver := out.receiver, net := c.net.Plus(|out.net|), dev := c.dev.Plus(|out.dev|),
       events := c.events + [event])
  }

  function DeviceTry(c: Course): nat { Min(READ_SIZE, c.net.Room() / ESC_WRITE_BYTES) }

  function SocketTry(c: Course): nat { Min(Min(READ_SIZE, c.net.Room() / HANDLE_BYTES), c.dev.Room()) }

  /** A read comes out: read is what a successful one amounts to. */
  function ReadStep(c: Course, outcome: Read, trybytes: nat, read: Event): (next: Course)
    requires Running(c)
    ensures Running(next) && next.tuned == c.tuned
  {
    if outcome.ReadBlocks? then if Narrow(c.server.platform) then c.(fate := Stops) else c
    else if Fails(outcome, trybytes) then c.(fate := Drops)
    else Happen(c, read)
  }

  function DeviceInStep(c: Course, asked: bool, outcome: Option<Read>): (next: Course)
    requires Running(c)
    ensures Running(next) && next.tuned == c.tuned
  {
    if !c.fate.Stays? || !asked || outcome.None? then c
    else ReadStep(c, outcome.value, DeviceTry(c), FromDevice(Taken(outcome.value, DeviceTry(c))))
  }

  function SocketInStep(c: Course, asked: bool, outcome: Option<Read>): (next: Course)
    requires Running(c)
    ensures Running(next) && next.tuned == c.tuned
  {
    if !c.fate.Stays? || !asked || outcome.None? then c
    else ReadStep(c, outcome.value, SocketTry(c), FromNet(Taken(outcome.value, SocketTry(c))))
  }

  function DeviceOutStep(c: Course, asked: bool, outcome: Option<Write>): (next: Course)
    ensures Running(c) ==> Running(next)
    ensures next.tuned == c.tuned
  {
    if !c.fate.Stays? || !asked || outcome.None? then c
    else
      match outcome.value
      case WriteFails => c.(fate := Drops)
      case WriteBlocks => c.(dev := c.dev.Unwritten(), intact := false)
      case Accepts(n) =>
        var iobytes := Min(n, c.dev.Contiguous());
        if iobytes == 0 then c.(fate := Drops)
        else c.(dev := c.dev.Minus(iobytes), toDevice := c.toDevice + iobytes)
  }

  function SocketOutStep(c: Course, asked: bool, outcome: Option<Write>): (next: Course)
    ensures Running(c) ==> Running(next)
    ensures next.tuned == c.tuned
  {
    if !c.fate.Stays? || !asked || outcome.None? then c
    else
      match outcome.value
      case WriteFails => c.(fate := Drops)
      case WriteBlocks => c.(net := c.net.Unwritten(), intact := false)
      case Accepts(n) =>
        var iobytes := Min(n, c.net.Contiguous());
        if iobytes == 0 then c.(fate := Drops)
        else c.(net := c.net.Minus(iobytes), toNetwork := c.toNetwork + iobytes)
  }

  lemma NoticesAreShort(s: Server)
    ensures |Notify(s).wire| <= BYTE_COMMAND_BYTES
  {
    hide EscWriteAll;
  }

  /** A notification that does not fit is added all the same, and the account is lost. */
  function Overfill(c: Course): (next: Course)
    requires Running(c) && c.net.Room() < |Notify(c.server).wire|
    ensures Running(next) && next.fate == c.fate && next.tuned == c.tuned
  {
    Happen(c, Polled).(net := c.net.Overfilled(|Notify(c.server).wire|), intact := false)
  }

  /** The poll: if the notification does not fit, an assertion stops the program or, without it, all waiting is lost. */
  function PollStep(c: Course, asked: bool): (next: Course)
    requires Running(c)
    ensures Running(next) && next.tuned == c.tuned
  {
    if !c.fate.Stays? || !asked then c
    else if c.net.Room() < |Notify(c.server).wire| then
      if c.server.platform.asserts then c.(fate := Stops) else Overfill(c)
    else Happen(c, Polled)
  }

  /** What the loop head asks select for. */
  datatype Asked = Asked(deviceIn: bool, deviceOut: bool, socketOut: bool, socketIn: bool, modem: bool)

  function AskedAt(c: Course): Asked {
    Asked(c.net.Room() >= ESC_WRITE_BYTES && c.server.inputFlow,
          c.dev.waiting > 0,
          c.net.waiting > 0,
          c.dev.Room() >= 1 && c.net.Room() >= HANDLE_BYTES,
          c.server.inputFlow && c.net.Room() >= BYTE_COMMAND_BYTES)
  }

  /** The four transfers, in the source's order. */
  function Transfers(c: Course, asked: Asked, e: Events): (next: Course)
    requires Running(c)
    ensures Running(next) && next.tuned == c.tuned
  {
    var c1 := DeviceInStep(c, asked.deviceIn, e.deviceIn);
    var c2 := DeviceOutStep(c1, asked.deviceOut, e.deviceOut);
    var c3 := SocketOutStep(c2, asked.socketOut, e.socketOut);
    SocketInStep(c3, asked.socketIn, e.socketIn)
  }

  /** One iteration of an open connection. */
  function Turn(c: Course, e: Events): (next: Course)
    requires Running(c)
    ensures Running(next) && next.tuned == c.tuned
  {
    var asked := AskedAt(c);
    PollStep(Transfers(Happen(c, LinesAre(e.lines)), asked, e), asked.modem && e.polled)
  }

  /** A connection just opened: our offers wait, and everything else is as the one before left it. */
  function Opened(s: Server, r: Receiver): Course {
    Course(Stays, s, r, Gauge(|INITIAL_OFFERS|, 0), Gauge(0, 0), s, r, [], 0, 0, true)
  }

  /** One iteration with nothing open. */
  function Admit(c: Course, e: Events): (next: Course)
    requires Running(c) && c.fate.Drops?
    ensures Running(next)
  {
    if !e.client then c
    else
      var s := c.server.(options := InitialOptions());
      if e.found.None? then c.(server := s) else Opened(s.(port := e.found.value), c.receiver)
  }

  function Iteration(c: Course, e: Events): (next: Course)
    requires Running(c)
    ensures Running(next)
  {
    match c.fate case Stays => Turn(c, e) case Drops => Admit(c, e) case Stops => c
  }

  /** Any number of iterations. */
  function Iterations(c: Course, events: seq<Events>): (next: Course)
    requires Running(c)
    ensures Running(next)
    decreases |events|
  {
    if events == [] then c else Iterations(Iteration(c, events[0]), events[1..])
  }
}
