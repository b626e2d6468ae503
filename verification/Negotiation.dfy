/** Option negotiation: what one endpoint has sent after any history, and how two of them settle. */
module Negotiation {
  import opened Wrappers
  import opened Bitwise
  import opened Telnet
  import opened TelnetStreams

  datatype OptMsg = OptMsg(verb: byte, option: byte)

  datatype Answered = Answered(table: OptTable, replies: seq<OptMsg>)

  /** What one option command does to the table, and the command it is answered with, if any. */
  function Answer(table: OptTable, m: OptMsg): Answered {
    var (opt, reply) := Negotiate(table[m.option as int], m.verb, Supported(m.option));
    Answered(SetOpt(table, m.option, opt), if reply.Some? then [OptMsg(reply.value, m.option)] else [])
  }

  function Bytes(ms: seq<OptMsg>): seq<byte> {
    if ms == [] then [] else [IAC, ms[0].verb, ms[0].option] + Bytes(ms[1..])
  }

  /** The bytes of an option command, in either transmission mode, have exactly that effect and that answer. */
  lemma OptionBytesAreAnswered(s: Server, r: Receiver, m: OptMsg)
    requires Sound(s, r) && r.esc == Normal && IsOptionVerb(m.verb)
    ensures var out := RedirectAll(s, r, Bytes([m]));
            var answered := Answer(s.options, m);
            && out.server == s.(options := answered.table) && out.net == Bytes(answered.replies)
            && out.dev == [] && out.receiver.esc == Normal
  {
    var command := [IAC, m.verb, m.option];
    assert Bytes([m]) == command by { assert [m][1..] == []; }
    OptionReplyBytes(s, m);
    hide Bytes, HandleIACCommand, Answer, Dispatchable;
    FixedCommandIsHandled(s, r, command);
  }

  lemma OptionReplyBytes(s: Server, m: OptMsg)
    requires ValidPlatform(s.platform) && IsOptionVerb(m.verb)
    ensures var command := [IAC, m.verb, m.option];
            var answered := Answer(s.options, m);
            && Dispatchable(command) && !IsSignature(command)
            && HandleIACCommand(s, command) == Did(s.(options := answered.table), Bytes(answered.replies))
  {
    hide HandleCPCCommand;
    var replies := Answer(s.options, m).replies;
    if replies != [] {
      assert replies[1..] == [];
    }
  }

  /** Data, however it was escaped, leaves the options alone, calls for no answer and ends outside any command. */
  lemma {:induction false} DataLeavesOptions(s: Server, r: Receiver, binary: bool, last: byte, data: seq<byte>)
    requires Sound(s, r) && r.esc == Normal
    ensures var out := RedirectAll(s, r, EscWriteAll(binary, last, data));
            out.server == s && out.net == [] && out.commands == [] && out.receiver.esc == Normal
    decreases |data|
  {
    hide RedirectAll, EscWrite;
    if data == [] {
      NothingRedirected(s, r);
    } else {
      OneByteLeavesOptions(s, r, binary, last, data[0]);
      var one := RedirectAll(s, r, EscWrite(binary, last, data[0]));
      DataLeavesOptions(one.server, one.receiver, binary, data[0], data[1..]);
      RedirectAppend(s, r, EscWrite(binary, last, data[0]), EscWriteAll(binary, data[0], data[1..]));
    }
  }

  lemma OneByteLeavesOptions(s: Server, r: Receiver, binary: bool, last: byte, c: byte)
    requires Sound(s, r) && r.esc == Normal
    ensures var out := RedirectAll(s, r, EscWrite(binary, last, c));
            out.server == s && out.net == [] && out.commands == [] && out.receiver.esc == Normal
  {
    hide RedirectAll;
    var wire := EscWrite(binary, last, c);
    QuietStep(s, r, wire[0]);
    if |wire| == 1 {
      assert wire == [wire[0]];
    } else {
      var mid := Receive(r, s.ReceivesBinary(), wire[0]).receiver;
      QuietStep(s, mid, c);
      RedirectAppend(s, r, [wire[0]], [c]);
      assert wire == [wire[0]] + [c];
    }
  }

  // ---------- The ledger of one endpoint ----------

  /** Which party's use of the option is meant: WILL/WONT and DO/DONT change roles. */
  datatype Side = Theirs | Ours
  {
    function On(): byte { if Theirs? then WILL else DO }
    function Off(): byte { if Theirs? then WONT else DONT }
    function Yes(): byte { if Theirs? then DO else WILL }
    function No(): byte { if Theirs? then DONT else WONT }
    function Of(opt: Opt): Half { if Theirs? then opt.theirs else opt.ours }
    predicate Concerns(m: OptMsg, option: byte) { m.option == option && (m.verb == On() || m.verb == Off()) }
  }

  const OFFERS: seq<OptMsg> :=
    [OptMsg(WILL, TRANSMIT_BINARY), OptMsg(DO, TRANSMIT_BINARY), OptMsg(WILL, ECHO),
     OptMsg(WILL, SUPPRESS_GO_AHEAD), OptMsg(DO, SUPPRESS_GO_AHEAD), OptMsg(DO, COM_PORT)]

  function Count(ms: seq<OptMsg>, m: OptMsg): nat { multiset(ms)[m] }

  /** A whole history, with everything sent in answer. */
  function Answers(history: seq<OptMsg>): Answered {
    if history == [] then Answered(InitialOptions(), [])
    else
      var n := |history| - 1;
      var before := Answers(history[..n]);
      var now := Answer(before.table, history[n]);
      Answered(now.table, before.replies + now.replies)
  }

  /** The verbs received for one side of an option, in order. */
  function Verbs(history: seq<OptMsg>, side: Side, option: byte): seq<byte> {
    if history == [] then []
    else
      var n := |history| - 1;
      Verbs(history[..n], side, option) + if side.Concerns(history[n], option) then [history[n].verb] else []
  }

  function CountVerb(verbs: seq<byte>, verb: byte): nat {
    if verbs == [] then 0
    else CountVerb(verbs[..|verbs| - 1], verb) + if verbs[|verbs| - 1] == verb then 1 else 0
  }

  /** How often the peer went back on what it had switched on. */
  function Retractions(verbs: seq<byte>, side: Side): nat {
    if |verbs| < 2 then 0
    else
      var n := |verbs| - 1;
      Retractions(verbs[..n], side) + if verbs[n] == side.Off() && verbs[n - 1] == side.On() then 1 else 0
  }

  predicate Offered(side: Side, option: byte) { OptMsg(side.Yes(), option) in OFFERS }

  /** How a request or a refusal concerning one side of an option is answered. */
  function SideAnswer(half: Half, side: Side, option: byte, verb: byte): Negotiated {
    if verb == side.On() then Request(half, Supported(option), side.Yes(), side.No()) else Refusal(half, side.No())
  }

  lemma AnswerOnSide(table: OptTable, m: OptMsg, side: Side, option: byte)
    ensures var now := Answer(table, m);
            var half, half' := side.Of(table[option as int]), side.Of(now.table[option as int]);
            var n := SideAnswer(half, side, option, m.verb);
            if side.Concerns(m, option) then
              half' == n.half && now.replies == if n.reply.Some? then [OptMsg(n.reply.value, option)] else []
            else
              && half' == half
              && Count(now.replies, OptMsg(side.Yes(), option)) == Count(now.replies, OptMsg(side.No(), option)) == 0
  {}

  lemma CountAppended(sent: seq<OptMsg>, replies: seq<OptMsg>, m: OptMsg)
    ensures Count(sent + replies, m) == Count(sent, m) + Count(replies, m)
    ensures forall x :: Count([x], m) == if x == m then 1 else 0
  {}

  /**
   * What an endpoint knows and has sent, by what it has received: an option is on exactly when it is supported
   * and was last switched on; a supported option has been agreed to once for every time it was switched on,
   * the first time by our own offer if we had made one, and disagreed with at every retraction; an unsupported
   * option has been refused once for each request.
   */
  predicate Balanced(half: Half, agreed: nat, refused: nat, verbs: seq<byte>, side: Side, option: byte) {
    var offered := Offered(side, option);
    var asked := CountVerb(verbs, side.On());
    && (half.on <==> Supported(option) && verbs != [] && verbs[|verbs| - 1] == side.On())
    && (half.sent <==> offered && verbs == [])
    && (if Supported(option) then
          && agreed + (if offered && verbs != [] && verbs[0] == side.On() then 1 else 0)
             == (if offered then 1 else 0) + asked
          && refused == Retractions(verbs, side)
        else agreed == 0 && refused == asked)
  }

  /** The ledger of one side of an option: everything sent, initial offers included, against the verbs received. */
  predicate Ledger(table: OptTable, sent: seq<OptMsg>, verbs: seq<byte>, side: Side, option: byte) {
    Balanced(side.Of(table[option as int]), Count(sent, OptMsg(side.Yes(), option)),
             Count(sent, OptMsg(side.No(), option)), verbs, side, option)
  }

  lemma {:induction false} LedgerBalances(history: seq<OptMsg>, side: Side, option: byte)
    ensures var out := Answers(history);
            Ledger(out.table, OFFERS + out.replies, Verbs(history, side, option), side, option)
  {
    hide Ledger, Answer, OFFERS;
    if history == [] {
      OffersBalance(side, option);
    } else {
      var n := |history| - 1;
      LedgerBalances(history[..n], side, option);
      var before := Answers(history[..n]);
      LedgerKept(before.table, OFFERS + before.replies, Verbs(history[..n], side, option), side, option, history[n]);
      var now := Answer(before.table, history[n]);
      assert OFFERS + (before.replies + now.replies) == OFFERS + before.replies + now.replies;
    }
  }

  lemma LedgerKept(table: OptTable, sent: seq<OptMsg>, verbs: seq<byte>, side: Side, option: byte, m: OptMsg)
    requires Ledger(table, sent, verbs, side, option)
    ensures var now := Answer(table, m);
            var verbs' := verbs + if side.Concerns(m, option) then [m.verb] else [];
            Ledger(now.table, sent + now.replies, verbs', side, option)
  {
    hide Balanced, Answer, Count, SideAnswer;
    var now := Answer(table, m);
    var yes, no := OptMsg(side.Yes(), option), OptMsg(side.No(), option);
    AnswerOnSide(table, m, side, option);
    CountAppended(sent, now.replies, yes);
    CountAppended(sent, now.replies, no);
    if side.Concerns(m, option) {
      NothingCounted(yes);
      NothingCounted(no);
      BalanceKept(side.Of(table[option as int]), Count(sent, yes), Count(sent, no), verbs, side, option, m.verb);
    } else {
      assert verbs + [] == verbs;
    }
  }

  lemma NothingCounted(m: OptMsg)
    ensures Count([], m) == 0
  {}

  lemma OffersBalance(side: Side, option: byte)
    ensures Ledger(InitialOptions(), OFFERS + [], [], side, option)
  {
    assert OFFERS + [] == OFFERS;
  }

  lemma BytesCons(m: OptMsg, rest: seq<OptMsg>)
    ensures Bytes([m] + rest) == [IAC, m.verb, m.option] + Bytes(rest)
  {
    assert ([m] + rest)[1..] == rest;
  }

  lemma OffersOnTheWire()
    ensures INITIAL_OFFERS == Bytes(OFFERS)
  {
    var o5 := [OptMsg(DO, COM_PORT)] + [];
    var o4 := [OptMsg(DO, SUPPRESS_GO_AHEAD)] + o5;
    var o3 := [OptMsg(WILL, SUPPRESS_GO_AHEAD)] + o4;
    var o2 := [OptMsg(WILL, ECHO)] + o3;
    var o1 := [OptMsg(DO, TRANSMIT_BINARY)] + o2;
    BytesCons(OptMsg(DO, COM_PORT), []);
    assert Bytes([]) == [];
    hide Bytes;
    BytesCons(OptMsg(DO, SUPPRESS_GO_AHEAD), o5);
    BytesCons(OptMsg(WILL, SUPPRESS_GO_AHEAD), o4);
    BytesCons(OptMsg(WILL, ECHO), o3);
    BytesCons(OptMsg(DO, TRANSMIT_BINARY), o2);
    BytesCons(OptMsg(WILL, TRANSMIT_BINARY), o1);
    assert OFFERS == [OptMsg(WILL, TRANSMIT_BINARY)] + o1;
  }

  lemma VerbsGrow(verbs: seq<byte>, side: Side, verb: byte)
    ensures CountVerb(verbs + [verb], side.On()) == CountVerb(verbs, side.On()) + if verb == side.On() then 1 else 0
    ensures Retractions(verbs + [verb], side)
         == Retractions(verbs, side)
            + if verb == side.Off() && verbs != [] && verbs[|verbs| - 1] == side.On() then 1 else 0
    ensures var verbs' := verbs + [verb];
            verbs'[|verbs' | - 1] == verb && verbs'[0] == if verbs == [] then verb else verbs[0]
  {
    assert (verbs + [verb])[..|verbs|] == verbs;
  }

  lemma BalanceKept(half: Half, agreed: nat, refused: nat, verbs: seq<byte>, side: Side, option: byte, verb: byte)
    requires Balanced(half, agreed, refused, verbs, side, option)
    requires verb == side.On() || verb == side.Off()
    ensures var n := SideAnswer(half, side, option, verb);
            Balanced(n.half, agreed + (if n.reply == Some(side.Yes()) then 1 else 0),
                     refused + (if n.reply == Some(side.No()) then 1 else 0), verbs + [verb], side, option)
  {
    VerbsGrow(verbs, side, verb);
    hide CountVerb, Retractions, Offered, Supported;
    NoVerbs(side);
  }

  lemma NoVerbs(side: Side)
    ensures CountVerb([], side.On()) == 0
  {}
}
