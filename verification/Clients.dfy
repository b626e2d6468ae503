/**
 * The client's side of a connection: what a Telnet client that follows RFC 854 makes of the network's bytes, and
 * when that is the device's bytes with the server's answers in their places.
 */
module Clients {
  import opened Wrappers
  import opened Bitwise
  import opened Ports
  import opened ModemView
  import opened Telnet
  import opened TelnetStreams
  import opened Replies
  import opened Connections

  // ---------- A client ----------

  /** What a client hears: a byte of data, an option command, or the body of a sub-negotiation, unescaped. */
  datatype Piece = Plain(data: byte) | Choice(verb: byte, option: byte) | Message(body: seq<byte>)

  datatype Place = Text | Escaped | Choosing(verb: byte) | Inside(body: seq<byte>) | EscapedInside(body: seq<byte>)

  /** Where in the stream a client is, and the last byte of data it saw. */
  datatype Client = Client(place: Place, last: byte)

  datatype Hearing = Hearing(client: Client, pieces: seq<Piece>)

  /** One byte; outside binary mode a NUL after a CR is dropped. */
  function Hear(c: Client, binary: bool, b: byte): Hearing {
    match c.place
    case Text =>
      if b == IAC then Hearing(c.(place := Escaped), [])
      else if !binary && b == NUL && c.last == CR then Hearing(Client(Text, b), [])
      else Hearing(Client(Text, b), [Plain(b)])
    case Escaped =>
      if b == IAC then Hearing(Client(Text, b), [Plain(b)])
      else if b == SB then Hearing(c.(place := Inside([])), [])
      else if IsOptionVerb(b) then Hearing(c.(place := Choosing(b)), [])
      else Hearing(c.(place := Text), [])
    case Choosing(verb) => Hearing(c.(place := Text), [Choice(verb, b)])
    case Inside(body) =>
      if b == IAC then Hearing(c.(place := EscapedInside(body)), [])
      else Hearing(c.(place := Inside(body + [b])), [])
    case EscapedInside(body) =>
      if b == IAC then Hearing(c.(place := Inside(body + [b])), [])
      else Hearing(c.(place := Text), if b == SE then [Message(body)] else [])
  }

  function HearAll(c: Client, binary: bool, bytes: seq<byte>): Hearing
    decreases |bytes|
  {
    if bytes == [] then Hearing(c, [])
    else
      var first := Hear(c, binary, bytes[0]);
      var rest := HearAll(first.client, binary, bytes[1..]);
      Hearing(rest.client, first.pieces + rest.pieces)
  }

  lemma {:induction false} HearAppend(c: Client, binary: bool, a: seq<byte>, b: seq<byte>)
    ensures var first := HearAll(c, binary, a);
            var second := HearAll(first.client, binary, b);
            HearAll(c, binary, a + b) == Hearing(second.client, first.pieces + second.pieces)
    decreases |a|
  {
    hide Hear;
    if a == [] {
      assert a + b == b;
    } else {
      assert (a + b)[0] == a[0] && (a + b)[1..] == a[1..] + b;
      HearAppend(Hear(c, binary, a[0]).client, binary, a[1..], b);
    }
  }

  lemma HearOne(c: Client, binary: bool, b: byte)
    ensures HearAll(c, binary, [b]) == Hear(c, binary, b)
  {
    var first := Hear(c, binary, b);
    assert [b][1..] == [] && HearAll(first.client, binary, []) == Hearing(first.client, []);
    assert first.pieces + [] == first.pieces;
    hide Hear;
  }

  // ---------- Sub-negotiations and options ----------

  /** Escaped bytes with the doubling undone: what a client finds between SB and SE. */
  function Stuffed(binary: bool, last: byte, data: seq<byte>): seq<byte>
    decreases |data|
  {
    if data == [] then []
    else
      var c := data[0];
      (if c != IAC && c != LF && !binary && last == CR then [NUL, c] else [c]) + Stuffed(binary, c, data[1..])
  }

  lemma {:induction false} StuffedInBinary(last: byte, data: seq<byte>)
    ensures Stuffed(true, last, data) == data
    decreases |data|
  {
    if data != [] {
      StuffedInBinary(data[0], data[1..]);
    }
  }

  lemma ByteInside(body: seq<byte>, last: byte, mode: bool, binary: bool, before: byte, c: byte)
    ensures HearAll(Client(Inside(body), last), mode, EscWrite(binary, before, c))
         == Hearing(Client(Inside(body + if c != IAC && c != LF && !binary && before == CR then [NUL, c] else [c]),
                           last), [])
  {
    var at := Client(Inside(body), last);
    var wire := EscWrite(binary, before, c);
    HearOne(at, mode, wire[0]);
    if |wire| == 2 {
      var mid := Hear(at, mode, wire[0]).client;
      HearOne(mid, mode, c);
      HearAppend(at, mode, [wire[0]], [c]);
      assert wire == [wire[0]] + [c];
      assert body + [NUL] + [c] == body + [NUL, c];
    } else {
      assert wire == [wire[0]];
    }
    hide HearAll;
  }

  lemma {:induction false} TextInside(body: seq<byte>, last: byte, mode: bool, binary: bool, before: byte,
      data: seq<byte>)
    ensures HearAll(Client(Inside(body), last), mode, EscWriteAll(binary, before, data))
         == Hearing(Client(Inside(body + Stuffed(binary, before, data)), last), [])
    decreases |data|
  {
    hide EscWrite;
    if data == [] {
      assert body + [] == body;
    } else {
      var c := data[0];
      var held := if c != IAC && c != LF && !binary && before == CR then [NUL, c] else [c];
      ByteInside(body, last, mode, binary, before, c);
      TextInside(body + held, last, mode, binary, c, data[1..]);
      HearAppend(Client(Inside(body), last), mode, EscWrite(binary, before, c), EscWriteAll(binary, c, data[1..]));
      assert body + held + Stuffed(binary, c, data[1..]) == body + Stuffed(binary, before, data);
      hide HearAll, EscWriteAll, Stuffed;
    }
  }

  /** IAC SB, a body of this beginning, and IAC SE. */
  lemma ReplyIsHeard(c: Client, mode: bool, s: Server, code: byte, parameters: seq<byte>)
    requires c.place == Text && code != IAC
    ensures HearAll(c, mode, SendReply(s, code, parameters).wire)
         == Hearing(c, [Message([COM_PORT, code] + Stuffed(s.SendsBinary(), s.last, parameters))])
  {
    var text := EscWriteAll(s.SendsBinary(), s.last, parameters);
    var body := [COM_PORT, code] + Stuffed(s.SendsBinary(), s.last, parameters);
    HeadIsHeard(c, mode, code);
    TextInside([COM_PORT, code], c.last, mode, s.SendsBinary(), s.last, parameters);
    EndIsHeard(c, mode, body);
    hide HearAll, EscWriteAll, Stuffed, LastOf;
    HearAppend(c, mode, [IAC, SB, COM_PORT, code], text);
    HearAppend(c, mode, [IAC, SB, COM_PORT, code] + text, [IAC, SE]);
  }

  lemma HeadIsHeard(c: Client, mode: bool, code: byte)
    requires c.place == Text && code != IAC
    ensures HearAll(c, mode, [IAC, SB, COM_PORT, code]) == Hearing(c.(place := Inside([COM_PORT, code])), [])
  {
    var c1, c2, c3 := c.(place := Escaped), c.(place := Inside([])), c.(place := Inside([COM_PORT]));
    HearOne(c3, mode, code);
    HearOne(c2, mode, COM_PORT);
    HearOne(c1, mode, SB);
    HearOne(c, mode, IAC);
    hide HearAll;
    HearAppend(c, mode, [IAC], [SB]);
    HearAppend(c, mode, [IAC] + [SB], [COM_PORT]);
    HearAppend(c, mode, [IAC] + [SB] + [COM_PORT], [code]);
    assert [IAC] + [SB] + [COM_PORT] + [code] == [IAC, SB, COM_PORT, code];
    assert [] + [COM_PORT] == [COM_PORT] && [COM_PORT] + [code] == [COM_PORT, code];
  }

  lemma EndIsHeard(c: Client, mode: bool, body: seq<byte>)
    ensures HearAll(c.(place := Inside(body)), mode, [IAC, SE]) == Hearing(c.(place := Text), [Message(body)])
  {
    var c1, c2 := c.(place := Inside(body)), c.(place := EscapedInside(body));
    HearOne(c1, mode, IAC);
    HearOne(c2, mode, SE);
    HearAppend(c1, mode, [IAC], [SE]);
    assert [IAC] + [SE] == [IAC, SE];
    hide HearAll;
  }

  lemma ChoiceIsHeard(c: Client, mode: bool, verb: byte, option: byte)
    requires c.place == Text && IsOptionVerb(verb)
    ensures HearAll(c, mode, [IAC, verb, option]) == Hearing(c, [Choice(verb, option)])
  {
    var c1, c2 := c.(place := Escaped), c.(place := Choosing(verb));
    HearOne(c, mode, IAC);
    HearOne(c1, mode, verb);
    HearOne(c2, mode, option);
    hide HearAll;
    HearAppend(c, mode, [IAC], [verb]);
    HearAppend(c, mode, [IAC] + [verb], [option]);
    assert [IAC] + [verb] + [option] == [IAC, verb, option];
  }

  lemma HearThree(c: Client, mode: bool, x: Piece, y: Piece, z: Piece)
    requires c.place == Text && x.Choice? && y.Choice? && z.Choice?
    requires IsOptionVerb(x.verb) && IsOptionVerb(y.verb) && IsOptionVerb(z.verb)
    ensures HearAll(c, mode, [IAC, x.verb, x.option, IAC, y.verb, y.option, IAC, z.verb, z.option])
         == Hearing(c, [x, y, z])
  {
    var a, b, d := [IAC, x.verb, x.option], [IAC, y.verb, y.option], [IAC, z.verb, z.option];
    ChoiceIsHeard(c, mode, x.verb, x.option);
    ChoiceIsHeard(c, mode, y.verb, y.option);
    ChoiceIsHeard(c, mode, z.verb, z.option);
    hide HearAll;
    HearAppend(c, mode, a, b);
    HearAppend(c, mode, a + b, d);
    assert a + b + d == [IAC, x.verb, x.option, IAC, y.verb, y.option, IAC, z.verb, z.option];
    assert [x] + [y] + [z] == [x, y, z];
  }

  /** The bytes a connection begins with are the six offers. */
  lemma OffersAreHeard(c: Client, mode: bool)
    requires c.place == Text
    ensures HearAll(c, mode, INITIAL_OFFERS)
         == Hearing(c, [Choice(WILL, TRANSMIT_BINARY), Choice(DO, TRANSMIT_BINARY), Choice(WILL, ECHO),
                        Choice(WILL, SUPPRESS_GO_AHEAD), Choice(DO, SUPPRESS_GO_AHEAD), Choice(DO, COM_PORT)])
  {
    hide HearAll;
    HearThree(c, mode, Choice(WILL, TRANSMIT_BINARY), Choice(DO, TRANSMIT_BINARY), Choice(WILL, ECHO));
    HearThree(c, mode, Choice(WILL, SUPPRESS_GO_AHEAD), Choice(DO, SUPPRESS_GO_AHEAD), Choice(DO, COM_PORT));
    var offers := INITIAL_OFFERS;
    assert offers[..9] == [IAC, WILL, TRANSMIT_BINARY, IAC, DO, TRANSMIT_BINARY, IAC, WILL, ECHO];
    assert offers[9..] == [IAC, WILL, SUPPRESS_GO_AHEAD, IAC, DO, SUPPRESS_GO_AHEAD, IAC, DO, COM_PORT];
    assert offers == offers[..9] + offers[9..];
    HearAppend(c, mode, offers[..9], offers[9..]);
  }

  // ---------- One act ----------

  function ReplyMeans(s: Server, reply: Reply): seq<Piece>
    requires ValidPlatform(s.platform) && (reply.SpeedReply? ==> reply.rate < 0x1_0000_0000)
  {
    match reply
    case NoReply => []
    case ByteReply(code, value) => [Told(s, code, [value])]
    case SpeedReply(rate) => [Told(s, 100 + SET_BAUDRATE, SpeedBytes(rate, s.platform.longSize))]
    case SignatureReply => [Told(s, 100 + SIGNATURE, s.platform.signature)]
  }

  /** A reply as its reader gets it; in binary mode with its parameters as they are. */
  function Told(s: Server, code: byte, parameters: seq<byte>): (piece: Piece)
    ensures piece.Message?
  {
    Message([COM_PORT, code] + Stuffed(s.SendsBinary(), s.last, parameters))
  }

  /** What the server means the client to hear: the device's byte as it is, or its own answer. */
  function Meaning(s: Server, act: Act): seq<Piece>
    requires ValidPlatform(s.platform) && CanDo(act)
  {
    match act
    case PassOn(data) => [Plain(data)]
    case See(_) => []
    case Announce(state) => [Told(s, NOTIFY_MODEMSTATE, [AndBytes(state, s.modemStateMask)])]
    case Obey(command) =>
      var verb, option := command[1], command[2];
      var opt := s.options[option as int];
      if verb == SB then
        if option == COM_PORT && (opt.ours.on || opt.theirs.on) then
          PerformLeaves(s, command);
          ReplyMeans(s, Perform(s, command).1)
        else []
      else if IsOptionVerb(verb) then
        var reply := Negotiate(opt, verb, Supported(option)).1;
        if reply.Some? then [Choice(reply.value, option)] else []
      else []
  }

  /**
   * A byte from the device is heard as it is: always in binary mode; otherwise a NUL is put before it exactly if
   * the client will drop one, and a NUL itself is not dropped.
   */
  predicate Clear(s: Server, heard: byte, data: byte) {
    || s.SendsBinary() || data == LF || data == IAC
    || (if s.last == CR then heard == CR else !(heard == CR && data == NUL))
  }

  lemma PassedOnIsHeard(c: Client, s: Server, data: byte)
    requires c.place == Text
    ensures var heard := HearAll(c, s.SendsBinary(), EscWrite(s.SendsBinary(), s.last, data));
            && heard.client == Client(Text, data)
            && (heard.pieces == [Plain(data)] <==> Clear(s, c.last, data))
  {
    var mode := s.SendsBinary();
    var wire := EscWrite(mode, s.last, data);
    HearOne(c, mode, wire[0]);
    if |wire| == 2 {
      var mid := Hear(c, mode, wire[0]).client;
      HearOne(mid, mode, data);
      HearAppend(c, mode, [wire[0]], [data]);
      assert wire == [wire[0]] + [data];
    } else {
      assert wire == [wire[0]];
    }
    hide HearAll;
  }

  lemma ByteReplyCodes(s: Server, command: seq<byte>)
    requires Dispatchable(command) && command[1] == SB
    ensures var reply := Perform(s, command).1; reply.ByteReply? ==> reply.code != IAC
  {
    hide RateOf, AndBytes, WithSpeed, FlowControlOf, SpeedOf;
  }

  lemma SayingIsHeard(c: Client, mode: bool, s: Server, reply: Reply)
    requires c.place == Text && ValidPlatform(s.platform) && (reply.SpeedReply? ==> reply.rate < 0x1_0000_0000)
    requires reply.ByteReply? ==> reply.code != IAC
    ensures HearAll(c, mode, Say(s, reply).wire) == Hearing(c, ReplyMeans(s, reply))
  {
    match reply
    case NoReply =>
    case ByteReply(code, value) => ReplyIsHeard(c, mode, s, code, [value]);
    case SpeedReply(rate) => ReplyIsHeard(c, mode, s, 100 + SET_BAUDRATE, SpeedBytes(rate, s.platform.longSize));
    case SignatureReply => ReplyIsHeard(c, mode, s, 100 + SIGNATURE, s.platform.signature);
    hide HearAll, SendReply, Stuffed, SpeedBytes;
  }

  lemma ObeyingIsHeard(c: Client, mode: bool, s: Server, command: seq<byte>)
    requires c.place == Text && ValidPlatform(s.platform) && Dispatchable(command)
    ensures HearAll(c, mode, HandleIACCommand(s, command).wire) == Hearing(c, Meaning(s, Obey(command)))
  {
    var verb, option := command[1], command[2];
    var opt := s.options[option as int];
    if verb == SB {
      PerformLeaves(s, command);
      ByteReplyCodes(s, command);
      var (s', reply) := Perform(s, command);
      SayingIsHeard(c, mode, s', reply);
      assert ReplyMeans(s', reply) == ReplyMeans(s, reply);
    } else if IsOptionVerb(verb) {
      var reply := Negotiate(opt, verb, Supported(option)).1;
      if reply.Some? {
        ChoiceIsHeard(c, mode, reply.value, option);
      }
    }
    assert HearAll(c, mode, []) == Hearing(c, []);
    hide HearAll, Perform, Say, ReplyMeans;
  }

  lemma ActIsHeard(c: Client, s: Server, act: Act)
    requires c.place == Text && ValidPlatform(s.platform) && CanDo(act)
    ensures var heard := HearAll(c, s.SendsBinary(), Do(s, act).wire);
            && heard.client == Client(Text, if act.PassOn? then act.data else c.last)
            && (heard.pieces == Meaning(s, act) <==> (act.PassOn? ==> Clear(s, c.last, act.data)))
  {
    match act
    case PassOn(data) => PassedOnIsHeard(c, s, data);
    case Obey(command) =>
      ObeyingIsHeard(c, s.SendsBinary(), s, command);
      hide HearAll, HandleIACCommand, Meaning;
    case Announce(state) =>
      ReplyIsHeard(c, s.SendsBinary(), s.(modemState := state), NOTIFY_MODEMSTATE,
                   [AndBytes(state, s.modemStateMask)]);
      hide HearAll, SendReply, Stuffed, AndBytes;
    case See(_) =>
  }

  // ---------- A run of acts ----------

  /** What a client hears that is at every moment in the mode the server is in. */
  function HearDone(c: Client, done: seq<Done>): Hearing {
    if done == [] then Hearing(c, [])
    else
      var n := |done| - 1;
      var before := HearDone(c, done[..n]);
      var now := HearAll(before.client, done[n].before.SendsBinary(), done[n].wire);
      Hearing(now.client, before.pieces + now.pieces)
  }

  ghost predicate Sane(s: Server, acts: seq<Act>) { ValidPlatform(s.platform) && forall act <- acts :: CanDo(act) }

  ghost function Meant(s: Server, acts: seq<Act>): seq<Piece>
    requires Sane(s, acts)
    decreases |acts|
  {
    if acts == [] then []
    else var n := |acts| - 1; Meant(s, acts[..n]) + Meaning(Serve(s, acts[..n]).server, acts[n])
  }

  /** The last byte of the device's that was passed on. */
  function LastPassed(heard: byte, acts: seq<Act>): byte {
    if acts == [] then heard
    else var n := |acts| - 1; if acts[n].PassOn? then acts[n].data else LastPassed(heard, acts[..n])
  }

  /** At every moment the client has heard what was meant. */
  ghost predicate HeardThroughout(c: Client, s: Server, acts: seq<Act>)
    requires Sane(s, acts)
    decreases |acts|
  {
    acts != [] ==>
      && HeardThroughout(c, s, acts[..|acts| - 1])
      && HearDone(c, Serve(s, acts).done).pieces == Meant(s, acts)
  }

  ghost predicate AlwaysClear(heard: byte, s: Server, acts: seq<Act>)
    requires Sane(s, acts)
    decreases |acts|
  {
    acts != [] ==>
      var n := |acts| - 1;
      && AlwaysClear(heard, s, acts[..n])
      && (acts[n].PassOn? ==> Clear(Serve(s, acts[..n]).server, LastPassed(heard, acts[..n]), acts[n].data))
  }

  lemma LastOfRun(c: Client, s: Server, acts: seq<Act>)
    requires Sane(s, acts) && acts != []
    ensures var n := |acts| - 1;
            var before, done := Serve(s, acts[..n]), Serve(s, acts).done;
            && ValidPlatform(before.server.platform) && CanDo(acts[n])
            && done[..n] == before.done
            && done[n] == Done(before.server, acts[n], Do(before.server, acts[n]).wire)
            && Serve(s, acts).server == Do(before.server, acts[n]).server
  {
    hide Do, CanDo, ValidPlatform;
  }

  /**
   * A client hears at every moment what was meant, every byte of the device's and every answer in its place and
   * nothing else, exactly when every byte passed on is clear.
   */
  lemma {:induction false} ClientHearsExactlyWhen(c: Client, s: Server, acts: seq<Act>)
    requires Sane(s, acts) && c.place == Text
    ensures HearDone(c, Serve(s, acts).done).client == Client(Text, LastPassed(c.last, acts))
    ensures HeardThroughout(c, s, acts) <==> AlwaysClear(c.last, s, acts)
    ensures HeardThroughout(c, s, acts) ==> HearDone(c, Serve(s, acts).done).pieces == Meant(s, acts)
    decreases |acts|
  {
    hide Do, HearAll, Meaning, Clear, CanDo;
    if acts != [] {
      var n := |acts| - 1;
      ClientHearsExactlyWhen(c, s, acts[..n]);
      LastOfRun(c, s, acts);
      var before := Serve(s, acts[..n]);
      var heard := HearDone(c, before.done);
      ActIsHeard(heard.client, before.server, acts[n]);
      var now := HearAll(heard.client, before.server.SendsBinary(), Do(before.server, acts[n]).wire);
      SameHead(Meant(s, acts[..n]), now.pieces, Meaning(before.server, acts[n]));
      hide Serve;
    }
  }

  /** In binary mode every byte is clear. */
  lemma {:induction false} BinaryIsClear(heard: byte, s: Server, acts: seq<Act>)
    requires Sane(s, acts) && forall did <- Serve(s, acts).done :: did.before.SendsBinary()
    ensures AlwaysClear(heard, s, acts)
    decreases |acts|
  {
    hide Do, CanDo;
    if acts != [] {
      var n := |acts| - 1;
      LastOfRun(Client(Text, heard), s, acts);
      var done := Serve(s, acts).done;
      assert done[n] in done;
      forall did | did in Serve(s, acts[..n]).done ensures did.before.SendsBinary() {
        assert did in done[..n];
      }
      BinaryIsClear(heard, s, acts[..n]);
    }
  }

  function WiresOf(done: seq<Done>): seq<byte> {
    if done == [] then [] else WiresOf(done[..|done| - 1]) + done[|done| - 1].wire
  }

  /** While the mode does not change, the client need not know where one act's bytes end. */
  lemma {:induction false} HearingIsFlat(c: Client, mode: bool, done: seq<Done>)
    requires forall did <- done :: did.before.SendsBinary() == mode
    ensures HearAll(c, mode, WiresOf(done)) == HearDone(c, done)
  {
    if done != [] {
      var n := |done| - 1;
      assert done[n] in done && forall did <- done[..n] :: did in done;
      HearingIsFlat(c, mode, done[..n]);
      HearAppend(c, mode, WiresOf(done[..n]), done[n].wire);
    }
    hide HearAll;
  }

  // ---------- The device's bytes ----------

  function DataIn(pieces: seq<Piece>): seq<byte> {
    if pieces == [] then []
    else DataIn(pieces[..|pieces| - 1]) + if pieces[|pieces| - 1].Plain? then [pieces[|pieces| - 1].data] else []
  }

  function Passed(acts: seq<Act>): seq<byte> {
    if acts == [] then []
    else Passed(acts[..|acts| - 1]) + if acts[|acts| - 1].PassOn? then [acts[|acts| - 1].data] else []
  }

  lemma {:induction false} DataInOneMore(pieces: seq<Piece>, more: seq<Piece>)
    requires |more| <= 1
    ensures DataIn(pieces + more) == DataIn(pieces) + if more != [] && more[0].Plain? then [more[0].data] else []
  {
    if more == [] {
      assert pieces + more == pieces;
    } else {
      assert (pieces + more)[..|pieces|] == pieces;
    }
  }

  lemma MeaningIsOnePiece(s: Server, act: Act)
    requires ValidPlatform(s.platform) && CanDo(act)
    ensures var pieces := Meaning(s, act);
            |pieces| <= 1 && (act.PassOn? ==> pieces == [Plain(act.data)])
            && (!act.PassOn? && pieces != [] ==> !pieces[0].Plain?)
  {
    hide Perform, Told, Negotiate;
  }

  /** The data in what is meant is the device's. */
  lemma {:induction false} MeantDataIsPassed(s: Server, acts: seq<Act>)
    requires Sane(s, acts)
    ensures DataIn(Meant(s, acts)) == Passed(acts)
    decreases |acts|
  {
    hide Meaning, Do, CanDo;
    if acts != [] {
      var n := |acts| - 1;
      MeantDataIsPassed(s, acts[..n]);
      LastOfRun(Client(Text, NUL), s, acts);
      var server := Serve(s, acts[..n]).server;
      MeaningIsOnePiece(server, acts[n]);
      DataInOneMore(Meant(s, acts[..n]), Meaning(server, acts[n]));
    }
  }

  /** Only a DONT for it takes binary mode from what we send. */
  predicate TakesBinary(act: Act) {
    act.Obey? && |act.command| >= 3 && act.command[1] == DONT && act.command[2] == TRANSMIT_BINARY
  }

  lemma DoingStaysBinary(s: Server, act: Act)
    requires ValidPlatform(s.platform) && CanDo(act) && s.SendsBinary() && !TakesBinary(act)
    ensures Do(s, act).server.SendsBinary()
  {
    if act.Obey? {
      HandlingLeaves(s, act.command);
    }
    hide HandleCPCCommand, AndBytes, EscWriteAll;
  }

  lemma {:induction false} RunStaysBinary(s: Server, acts: seq<Act>)
    requires Sane(s, acts) && s.SendsBinary() && forall act <- acts :: !TakesBinary(act)
    ensures Serve(s, acts).server.SendsBinary()
    ensures forall did <- Serve(s, acts).done :: did.before.SendsBinary()
    decreases |acts|
  {
    hide Do, CanDo, TakesBinary;
    if acts != [] {
      var n := |acts| - 1;
      assert acts[n] in acts;
      RunStaysBinary(s, acts[..n]);
      LastOfRun(Client(Text, NUL), s, acts);
      DoingStaysBinary(Serve(s, acts[..n]).server, acts[n]);
      var done := Serve(s, acts).done;
      forall did | did in done ensures did.before.SendsBinary() {
        assert did in done[..n] || did == done[n];
      }
    }
  }

  /**
   * Once we send binary, and until we are told not to, a client that knows nothing but the bytes makes of them every
   * byte from the device and every answer, in order, and nothing else.
   */
  lemma BinaryStreamIsHeard(c: Client, s: Server, acts: seq<Act>)
    requires Sane(s, acts) && c.place == Text
    requires s.SendsBinary() && forall act <- acts :: !TakesBinary(act)
    ensures var heard := HearAll(c, true, WiresOf(Serve(s, acts).done));
            heard.client.place == Text && heard.pieces == Meant(s, acts) && DataIn(heard.pieces) == Passed(acts)
  {
    RunStaysBinary(s, acts);
    BinaryIsClear(c.last, s, acts);
    ClientHearsExactlyWhen(c, s, acts);
    HearingIsFlat(c, true, Serve(s, acts).done);
    MeantDataIsPassed(s, acts);
    hide Serve, HearAll, HearDone, Meant, AlwaysClear, HeardThroughout, CanDo, TakesBinary;
  }

  // ---------- A connection as a run of acts ----------

  lemma {:induction false} CommandsAreDispatchable(s: Server, r: Receiver, bytes: seq<byte>)
    requires Sound(s, r)
    ensures forall command <- RedirectAll(s, r, bytes).commands :: Dispatchable(command)
    decreases |bytes|
  {
    if bytes != [] {
      ReceiveKeepsValid(r, s.ReceivesBinary(), bytes[0]);
      hide Receive, HandleIACCommand, Sound, Dispatchable;
      var one := EscRedirectChar(s, r, bytes[0]);
      CommandsAreDispatchable(one.server, one.receiver, bytes[1..]);
    }
  }

  function PassOnAll(bytes: seq<byte>): (acts: seq<Act>)
    ensures |acts| == |bytes|
  {
    seq(|bytes|, i requires 0 <= i < |bytes| => PassOn(bytes[i]))
  }

  function ObeyAll(commands: seq<seq<byte>>): (acts: seq<Act>)
    ensures |acts| == |commands|
  {
    seq(|commands|, i requires 0 <= i < |commands| => Obey(commands[i]))
  }

  function ActsOfEvent(s: Server, r: Receiver, event: Event): seq<Act>
    requires Sound(s, r)
  {
    match event
    case FromDevice(bytes) => PassOnAll(bytes)
    case FromNet(bytes) => ObeyAll(RedirectAll(s, r, bytes).commands)
    case LinesAre(lines) => [See(lines)]
    case Polled =>
      var poll := PollLines(s.modemState, s.modemStateMask, s.port.lines);
      if poll.notice.Some? then [Announce(poll.state)] else []
  }

  /** What the server does over these events. */
  function ActsOf(s: Server, r: Receiver, events: seq<Event>): seq<Act>
    requires Sound(s, r)
    decreases |events|
  {
    if events == [] then []
    else
      var n := |events| - 1;
      var before := Replay(s, r, events[..n]);
      ActsOf(s, r, events[..n]) + ActsOfEvent(before.server, before.receiver, events[n])
  }

  /** These acts make of the server, and write to the network, what is said here. */
  ghost predicate Does(s: Server, acts: seq<Act>, server: Server, wire: seq<byte>) {
    && Sane(s, acts)
    && var out := Serve(s, acts); out.server == server && WiresOf(out.done) == wire
  }

  lemma DoesNothing(s: Server)
    requires ValidPlatform(s.platform)
    ensures Does(s, [], s, [])
  {}

  lemma DoingNothing(s: Server, server: Server, wire: seq<byte>)
    requires Does(s, [], server, wire)
    ensures server == s && wire == []
  {}

  lemma DoesOneMore(s: Server, acts: seq<Act>, server: Server, wire: seq<byte>, act: Act)
    requires Does(s, acts, server, wire) && CanDo(act)
    ensures ValidPlatform(server.platform)
    ensures var did := Do(server, act); Does(s, acts + [act], did.server, wire + did.wire)
  {
    hide Do, CanDo;
    assert (acts + [act])[..|acts|] == acts;
    LastOfRun(Client(Text, NUL), s, acts + [act]);
  }

  lemma DoesOne(s: Server, act: Act)
    requires ValidPlatform(s.platform) && CanDo(act)
    ensures var did := Do(s, act); Does(s, [act], did.server, did.wire)
  {
    hide Do, CanDo, Does;
    DoesNothing(s);
    DoesOneMore(s, [], s, [], act);
    assert [] + [act] == [act] && [] + Do(s, act).wire == Do(s, act).wire;
  }

  lemma DoesAllButLast(s: Server, acts: seq<Act>, server: Server, wire: seq<byte>)
    returns (mid: Server, text: seq<byte>)
    requires Does(s, acts, server, wire) && acts != []
    ensures Does(s, acts[..|acts| - 1], mid, text) && ValidPlatform(mid.platform) && CanDo(acts[|acts| - 1])
    ensures var did := Do(mid, acts[|acts| - 1]); server == did.server && wire == text + did.wire
  {
    hide Do, CanDo;
    LastOfRun(Client(Text, NUL), s, acts);
    var before := Serve(s, acts[..|acts| - 1]);
    mid, text := before.server, WiresOf(before.done);
  }

  lemma {:induction false} DoesMore(s: Server, acts: seq<Act>, server: Server, wire: seq<byte>,
      more: seq<Act>, server': Server, wire': seq<byte>)
    requires Does(s, acts, server, wire) && Does(server, more, server', wire')
    ensures Does(s, acts + more, server', wire + wire')
    decreases |more|
  {
    hide Does, Do, Serve, WiresOf;
    if more == [] {
      DoingNothing(server, server', wire');
      assert acts + more == acts && wire + wire' == wire;
    } else {
      var n := |more| - 1;
      var mid, text := DoesAllButLast(server, more, server', wire');
      DoesMore(s, acts, server, wire, more[..n], mid, text);
      DoesOneMore(s, acts + more[..n], mid, wire + text, more[n]);
      assert acts + more[..n] + [more[n]] == acts + more;
      assert wire + text + Do(mid, more[n]).wire == wire + (text + Do(mid, more[n]).wire);
    }
  }

  lemma {:induction false} ForwardingIsPassingOn(s: Server, bytes: seq<byte>)
    requires ValidPlatform(s.platform)
    ensures var did := Forward(s, bytes); Does(s, PassOnAll(bytes), did.server, did.wire)
    decreases |bytes|
  {
    if bytes == [] {
      DoesNothing(s);
    } else {
      var n := |bytes| - 1;
      var before := Forward(s, bytes[..n]);
      ForwardingIsPassingOn(s, bytes[..n]);
      EscWriteOneMore(s.SendsBinary(), s.last, bytes[..n], bytes[n]);
      assert bytes[..n] + [bytes[n]] == bytes && PassOnAll(bytes) == PassOnAll(bytes[..n]) + [PassOn(bytes[n])];
      hide Does, EscWriteAll, EscWrite;
      DoesOneMore(s, PassOnAll(bytes[..n]), before.server, before.wire, PassOn(bytes[n]));
    }
  }

  lemma OneByteIsObeying(s: Server, r: Receiver, c: byte)
    requires Sound(s, r)
    ensures var out := EscRedirectChar(s, r, c); Does(s, ObeyAll(out.commands), out.server, out.net)
  {
    ReceiveKeepsValid(r, s.ReceivesBinary(), c);
    var step := Receive(r, s.ReceivesBinary(), c);
    hide Receive, HandleIACCommand, Does, ValidReceiver;
    if step.command.Some? {
      DoesOne(s, Obey(step.command.value));
      assert ObeyAll([step.command.value]) == [Obey(step.command.value)];
    } else {
      DoesNothing(s);
      assert ObeyAll([]) == [];
    }
  }

  lemma ObeyAppend(a: seq<seq<byte>>, b: seq<seq<byte>>)
    ensures ObeyAll(a + b) == ObeyAll(a) + ObeyAll(b)
  {}

  lemma {:induction false} RedirectingIsObeying(s: Server, r: Receiver, bytes: seq<byte>)
    requires Sound(s, r)
    ensures var out := RedirectAll(s, r, bytes); Does(s, ObeyAll(out.commands), out.server, out.net)
    decreases |bytes|
  {
    if bytes == [] {
      DoesNothing(s);
      assert ObeyAll([]) == [];
    } else {
      hide Does, EscRedirectChar, Sound, ObeyAll;
      var one := EscRedirectChar(s, r, bytes[0]);
      OneByteIsObeying(s, r, bytes[0]);
      RedirectingIsObeying(one.server, one.receiver, bytes[1..]);
      var rest := RedirectAll(one.server, one.receiver, bytes[1..]);
      ObeyAppend(one.commands, rest.commands);
      DoesMore(s, ObeyAll(one.commands), one.server, one.net, ObeyAll(rest.commands), rest.server, rest.net);
    }
  }

  lemma EventIsActs(s: Server, r: Receiver, event: Event)
    requires Sound(s, r)
    ensures var out := Handle(s, r, event); Does(s, ActsOfEvent(s, r, event), out.server, out.net)
  {
    hide Does, RedirectAll, EscWriteAll, PassOnAll, ObeyAll, PollLines, AndBytes, ValidReceiver;
    match event
    case FromDevice(bytes) => ForwardingIsPassingOn(s, bytes);
    case FromNet(bytes) => RedirectingIsObeying(s, r, bytes);
    case LinesAre(lines) => DoesOne(s, See(lines));
    case Polled => PollIsAnnouncing(s);
  }

  lemma PollIsAnnouncing(s: Server)
    requires ValidPlatform(s.platform)
    ensures var did := Notify(s);
            var poll := PollLines(s.modemState, s.modemStateMask, s.port.lines);
            Does(s, if poll.notice.Some? then [Announce(poll.state)] else [], did.server, did.wire)
  {
    hide Does, AndBytes, SendReply, ModemStateOf;
    var poll := PollLines(s.modemState, s.modemStateMask, s.port.lines);
    if poll.notice.Some? {
      DoesOne(s, Announce(poll.state));
    } else {
      DoesNothing(s);
    }
  }

  /** The network's stream of a connection is what the acts write, one after the other. */
  lemma {:induction false} ConnectionIsActs(s: Server, r: Receiver, events: seq<Event>)
    requires Sound(s, r)
    ensures var out := Replay(s, r, events); Does(s, ActsOf(s, r, events), out.server, out.net)
    decreases |events|
  {
    hide Does, Handle, ActsOfEvent;
    if events == [] {
      DoesNothing(s);
    } else {
      var n := |events| - 1;
      var before := Replay(s, r, events[..n]);
      ConnectionIsActs(s, r, events[..n]);
      EventIsActs(before.server, before.receiver, events[n]);
      var out := Handle(before.server, before.receiver, events[n]);
      hide Sound;
      DoesMore(s, ActsOf(s, r, events[..n]), before.server, before.net,
               ActsOfEvent(before.server, before.receiver, events[n]), out.server, out.net);
    }
  }

  /** Everything read from the device. */
  function DeviceBytes(events: seq<Event>): seq<byte> {
    if events == [] then []
    else
      var n := |events| - 1;
      DeviceBytes(events[..n]) + if events[n].FromDevice? then events[n].bytes else []
  }

  lemma {:induction false} PassedAppend(a: seq<Act>, b: seq<Act>)
    ensures Passed(a + b) == Passed(a) + Passed(b)
    decreases |b|
  {
    if b == [] {
      assert a + b == a;
    } else {
      var n := |b| - 1;
      assert (a + b)[..|a| + n] == a + b[..n] && (a + b)[|a| + n] == b[n];
      PassedAppend(a, b[..n]);
    }
  }

  lemma {:induction false} PassedAll(bytes: seq<byte>)
    ensures Passed(PassOnAll(bytes)) == bytes
  {
    if bytes != [] {
      var n := |bytes| - 1;
      PassedAll(bytes[..n]);
      assert PassOnAll(bytes)[..n] == PassOnAll(bytes[..n]);
    }
  }

  lemma {:induction false} NonePassed(acts: seq<Act>)
    requires forall act <- acts :: !act.PassOn?
    ensures Passed(acts) == []
  {
    if acts != [] {
      assert acts[|acts| - 1] in acts;
      NonePassed(acts[..|acts| - 1]);
    }
  }

  lemma EventPasses(s: Server, r: Receiver, event: Event)
    requires Sound(s, r)
    ensures Passed(ActsOfEvent(s, r, event)) == if event.FromDevice? then event.bytes else []
  {
    hide PollLines, RedirectAll, Sound;
    if event.FromDevice? {
      PassedAll(event.bytes);
    } else {
      NonePassed(ActsOfEvent(s, r, event));
    }
  }

  /** What is passed on over a connection is what was read from the device. */
  lemma {:induction false} DeviceBytesArePassed(s: Server, r: Receiver, events: seq<Event>)
    requires Sound(s, r)
    ensures Passed(ActsOf(s, r, events)) == DeviceBytes(events)
    decreases |events|
  {
    hide Replay, ActsOfEvent, Sound;
    if events != [] {
      var n := |events| - 1;
      var before := Replay(s, r, events[..n]);
      DeviceBytesArePassed(s, r, events[..n]);
      EventPasses(before.server, before.receiver, events[n]);
      PassedAppend(ActsOf(s, r, events[..n]), ActsOfEvent(before.server, before.receiver, events[n]));
    }
  }

  /**
   * End to end, the other way: what network has accepted and what waits for it is our offers and then what the
   * server did; a client that follows the server's mode hears at every moment every byte read from the device, and
   * every answer in its place, exactly when all of them are clear.
   */
  lemma DeviceDataReachesClient(book: Book, now: Redirected, c: Client)
    requires Balances(book, now) && book.intact && c.place == Text
    ensures var acts := ActsOf(book.server, book.receiver, book.events);
            && Sane(book.server, acts)
            && var done := Serve(book.server, acts).done;
            && book.network + now.net == INITIAL_OFFERS + WiresOf(done)
            && (HeardThroughout(c, book.server, acts) <==> AlwaysClear(c.last, book.server, acts))
            && (AlwaysClear(c.last, book.server, acts) ==>
                  && HearDone(c, done).pieces == Meant(book.server, acts)
                  && DataIn(HearDone(c, done).pieces) == DeviceBytes(book.events))
  {
    var acts := ActsOf(book.server, book.receiver, book.events);
    ConnectionIsActs(book.server, book.receiver, book.events);
    hide Replay, Sound;
    ClientHearsExactlyWhen(c, book.server, acts);
    MeantDataIsPassed(book.server, acts);
    DeviceBytesArePassed(book.server, book.receiver, book.events);
    hide Serve, ActsOf, HearDone, Meant, HeardThroughout, AlwaysClear, DeviceBytes, CanDo;
  }

  /** Over a connection too, the last confirmation of a setting is what the port reports now. */
  lemma ConnectionConfirms(book: Book, now: Redirected, setting: Setting)
    requires Balances(book, now)
    ensures var acts := ActsOf(book.server, book.receiver, book.events);
            && Sane(book.server, acts)
            && var done := Serve(book.server, acts).done;
            var value, last := Reported(now.server.port, setting), LastAsked(done, setting);
            if last.None? then value == Reported(book.server.port, setting)
            else Heard(done[last.value].before, setting) ==> LastConfirmed(done, setting) == Some(value)
  {
    var acts := ActsOf(book.server, book.receiver, book.events);
    ConnectionIsActs(book.server, book.receiver, book.events);
    hide Replay, Sound;
    LastConfirmationIsCurrent(book.server, acts, setting);
    hide Serve, ActsOf, LastConfirmed, LastAsked, Heard, Reported, Confirmation, CanDo;
  }

  // ---------- A byte that is not clear ----------

  /** The client sets the modem-state mask to 13, which is also a CR. */
  const MASK_13: seq<byte> := [IAC, SB, COM_PORT, SET_MODEMSTATE_MASK, CR, IAC, SE]

  lemma ServeTwo(s: Server, a: Act, b: Act)
    requires ValidPlatform(s.platform) && CanDo(a) && CanDo(b)
    ensures Do(s, a).server.platform == s.platform
    ensures var s1 := Do(s, a).server;
            Serve(s, [a, b]).done == [Done(s, a, Do(s, a).wire), Done(s1, b, Do(s1, b).wire)]
  {
    hide Do, CanDo;
    DoingLeaves(s, a);
    LastOfRun(Client(Text, NUL), s, [a, b]);
    assert [a, b][..1] == [a];
    LastOfRun(Client(Text, NUL), s, [a]);
    assert [a][..0] == [];
    var done := Serve(s, [a, b]).done;
    assert done == done[..1] + [done[1]];
    assert Serve(s, [a]).done == Serve(s, [a]).done[..0] + [Serve(s, [a]).done[0]];
  }

  lemma HearTwo(c: Client, first: Done, second: Done)
    ensures var a := HearAll(c, first.before.SendsBinary(), first.wire);
            var b := HearAll(a.client, second.before.SendsBinary(), second.wire);
            HearDone(c, [first, second]) == Hearing(b.client, a.pieces + b.pieces)
  {
    hide HearAll;
    var a := HearAll(c, first.before.SendsBinary(), first.wire);
    assert [first, second][..1] == [first] && [first][..0] == [];
    assert HearDone(c, [first]) == Hearing(a.client, [] + a.pieces);
    assert [] + a.pieces == a.pieces;
  }

  lemma NulAndByte(c: Client, data: byte)
    requires c.place == Text && c.last != CR && data != IAC
    ensures HearAll(c, false, [NUL, data]) == Hearing(Client(Text, data), [Plain(NUL), Plain(data)])
  {
    HearOne(c, false, NUL);
    HearOne(Client(Text, NUL), false, data);
    HearAppend(c, false, [NUL], [data]);
    assert [NUL] + [data] == [NUL, data];
    hide HearAll;
  }

  lemma PassedTwo(first: Act, data: byte)
    requires !first.PassOn?
    ensures Passed([first, PassOn(data)]) == [data]
  {
    assert [first, PassOn(data)][..1] == [first] && [first][..0] == [];
    assert Passed([first]) == [];
  }

  lemma DataInThree(told: Piece, a: byte, b: byte)
    requires !told.Plain?
    ensures DataIn([told, Plain(a), Plain(b)]) == [a, b]
  {
    DataInOneMore([], [told]);
    DataInOneMore([told], [Plain(a)]);
    DataInOneMore([told, Plain(a)], [Plain(b)]);
    assert [] + [told] == [told] && [told] + [Plain(a)] == [told, Plain(a)];
    assert [told, Plain(a)] + [Plain(b)] == [told, Plain(a), Plain(b)];
    assert DataIn([]) == [];
    hide DataIn;
  }

  lemma MaskIsConfirmed(s: Server, data: byte)
    requires ValidPlatform(s.platform) && !s.SendsBinary() && s.options[COM_PORT as int].ours.on
    requires data != IAC && data != LF
    ensures var s1 := s.(modemStateMask := CR, last := CR);
            && Dispatchable(MASK_13)
            && Do(s, Obey(MASK_13)) == Did(s1, SendReply(s, 100 + SET_MODEMSTATE_MASK, [CR]).wire)
            && Do(s1, PassOn(data)).wire == [NUL, data] && !s1.SendsBinary()
  {
    hide EscWriteAll;
  }

  /** Outside binary mode the device's next byte then comes with a NUL the client takes for data. */
  lemma NulIsTakenForData(c: Client, s: Server, data: byte)
    requires ValidPlatform(s.platform) && !s.SendsBinary() && s.options[COM_PORT as int].ours.on
    requires c.place == Text && c.last != CR && data != IAC && data != LF
    ensures var acts := [Obey(MASK_13), PassOn(data)];
            && Sane(s, acts) && Passed(acts) == [data]
            && DataIn(HearDone(c, Serve(s, acts).done).pieces) == [NUL, data]
  {
    var first, second := Obey(MASK_13), PassOn(data);
    var s1 := s.(modemStateMask := CR, last := CR);
    MaskIsConfirmed(s, data);
    ReplyIsHeard(c, false, s, 100 + SET_MODEMSTATE_MASK, [CR]);
    NulAndByte(c, data);
    hide Do, HearAll, SendReply, Stuffed, MASK_13;
    ServeTwo(s, first, second);
    var wire := SendReply(s, 100 + SET_MODEMSTATE_MASK, [CR]).wire;
    HearTwo(c, Done(s, first, wire), Done(s1, second, [NUL, data]));
    PassedTwo(first, data);
    var told := Message([COM_PORT, 100 + SET_MODEMSTATE_MASK] + Stuffed(false, s.last, [CR]));
    DataInThree(told, NUL, data);
    assert [told] + [Plain(NUL), Plain(data)] == [told, Plain(NUL), Plain(data)];
  }
}
