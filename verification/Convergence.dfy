/**
 * Two endpoints that both run the option automaton, joined by two FIFO channels: whatever the order of
 * deliveries and however much data is sent in between, they agree after eight option commands each.
 */
module Convergence {
  import opened Wrappers
  import opened Bitwise
  import opened Telnet
  import opened Negotiation

  datatype Packet = Message(m: OptMsg) | Bulk(data: seq<byte>)

  /** Both endpoints' tables, the packets under way in each direction, and how many option commands each has sent. */
  datatype Pair = Pair(a: OptTable, b: OptTable, toA: seq<Packet>, toB: seq<Packet>, sentByA: nat, sentByB: nat)
  {
    /** The same pair seen from the other end. */
    function Swapped(): Pair { Pair(b, a, toB, toA, sentByB, sentByA) }
  }

  datatype Action = DeliverToA | DeliverToB | DataFromA(data: seq<byte>) | DataFromB(data: seq<byte>)

  function Packets(ms: seq<OptMsg>): seq<Packet> {
    if ms == [] then [] else [Message(ms[0])] + Packets(ms[1..])
  }

  /** Both have sent their initial offers and received nothing. */
  function Start(): Pair {
    Pair(InitialOptions(), InitialOptions(), Packets(OFFERS), Packets(OFFERS), |OFFERS|, |OFFERS|)
  }

  function DeliverA(p: Pair): Pair
    requires p.toA != []
  {
    var rest := p.(toA := p.toA[1..]);
    if p.toA[0].Bulk? then rest
    else
      var now := Answer(p.a, p.toA[0].m);
      rest.(a := now.table, toB := p.toB + Packets(now.replies), sentByA := p.sentByA + |now.replies|)
  }

  predicate Possible(p: Pair, action: Action) {
    (action.DeliverToA? ==> p.toA != []) && (action.DeliverToB? ==> p.toB != [])
  }

  function Next(p: Pair, action: Action): Pair
    requires Possible(p, action)
  {
    match action
    case DeliverToA => DeliverA(p)
    case DeliverToB => DeliverA(p.Swapped()).Swapped()
    case DataFromA(data) => p.(toB := p.toB + [Bulk(data)])
    case DataFromB(data) => p.(toA := p.toA + [Bulk(data)])
  }

  /** The pair after these actions, if each was possible in its turn. */
  function Run(p: Pair, actions: seq<Action>): Option<Pair>
    decreases |actions|
  {
    if actions == [] then Some(p)
    else if !Possible(p, actions[0]) then None
    else Run(Next(p, actions[0]), actions[1..])
  }

  function InFlight(packets: seq<Packet>): nat {
    if packets == [] then 0 else InFlight(packets[1..]) + if packets[0].Message? then 1 else 0
  }

  /** Option commands delivered by these actions. */
  function Delivered(p: Pair, actions: seq<Action>): nat
    requires Run(p, actions).Some?
    decreases |actions|
  {
    if actions == [] then 0
    else
      Delivered(Next(p, actions[0]), actions[1..])
        + if actions[0].DeliverToA? && p.toA[0].Message? then 1
          else if actions[0].DeliverToB? && p.toB[0].Message? then 1
          else 0
  }

  function Under(packets: seq<Packet>, verb: byte, option: byte): nat {
    multiset(packets)[Message(OptMsg(verb, option))]
  }

  /**
   * One option in one direction: our half, the peer's view of it, our WILLs under way to the peer and its DOs
   * under way to us. Every offer crosses the other's, or is answered once, and nothing else is ever sent.
   */
  predicate Settling(ours: Half, theirs: Half, wills: nat, dos: nat, option: byte) {
    if option == TRANSMIT_BINARY || option == SUPPRESS_GO_AHEAD then
      wills <= 1 && dos <= 1 && ours == Half(dos == 1, dos == 0) && theirs == Half(wills == 1, wills == 0)
    else if option == ECHO then
      || (wills == 1 && dos == 0 && ours == Half(true, false) && theirs == OFF)
      || (wills == 0 && dos == 1 && ours == Half(true, false) && theirs == ON)
      || (wills == 0 && dos == 0 && ours == ON && theirs == ON)
    else if option == COM_PORT then
      || (wills == 0 && dos == 1 && ours == OFF && theirs == Half(true, false))
      || (wills == 1 && dos == 0 && ours == ON && theirs == Half(true, false))
      || (wills == 0 && dos == 0 && ours == ON && theirs == ON)
    else wills == 0 && dos == 0 && ours == OFF && theirs == OFF
  }

  predicate OnlyOffers(packets: seq<Packet>) {
    forall packet <- packets :: packet.Message? ==> packet.m.verb == WILL || packet.m.verb == DO
  }

  ghost predicate Converging(p: Pair) {
    && OnlyOffers(p.toA) && OnlyOffers(p.toB)
    && Links(p.a, p.b, p.toB, p.toA) && Links(p.b, p.a, p.toA, p.toB)
    && p.sentByA == 6 + Replied(p.a) && p.sentByB == 6 + Replied(p.b)
  }

  /** Each end makes two replies: DO ECHO when the peer offers to echo, WILL COM-PORT when the peer asks for it. */
  function Replied(table: OptTable): nat {
    (if table[ECHO as int].theirs.on then 1 else 0) + (if table[COM_PORT as int].ours.on then 1 else 0)
  }

  // ---------- Channels ----------

  lemma UnderHead(packets: seq<Packet>, verb: byte, option: byte)
    requires packets != []
    ensures Under(packets, verb, option)
         == Under(packets[1..], verb, option) + if packets[0] == Message(OptMsg(verb, option)) then 1 else 0
  {
    assert packets == [packets[0]] + packets[1..];
  }

  lemma UnderAppended(packets: seq<Packet>, more: seq<Packet>, verb: byte, option: byte)
    ensures Under(packets + more, verb, option) == Under(packets, verb, option) + Under(more, verb, option)
  {}

  lemma UnderReplies(replies: seq<OptMsg>, verb: byte, option: byte)
    requires |replies| <= 1
    ensures Under(Packets(replies), verb, option) == if replies == [OptMsg(verb, option)] then 1 else 0
  {
    if replies != [] {
      assert replies[1..] == [] && Packets(replies) == [Message(replies[0])];
    }
  }

  // ---------- One link ----------

  lemma WillDelivered(ours: Half, theirs: Half, wills: nat, dos: nat, option: byte)
    requires Settling(ours, theirs, wills, dos, option) && wills > 0
    ensures var n := Request(theirs, Supported(option), DO, DONT);
            && Settling(ours, n.half, wills - 1, dos + (if n.reply == Some(DO) then 1 else 0), option)
            && n.reply == (if option == ECHO then Some(DO) else None)
            && n.half.on && (option == ECHO ==> !theirs.on)
  {}

  lemma DoDelivered(ours: Half, theirs: Half, wills: nat, dos: nat, option: byte)
    requires Settling(ours, theirs, wills, dos, option) && dos > 0
    ensures var n := Request(ours, Supported(option), WILL, WONT);
            && Settling(n.half, theirs, wills + (if n.reply == Some(WILL) then 1 else 0), dos - 1, option)
            && n.reply == (if option == COM_PORT then Some(WILL) else None)
            && n.half.on && (option == COM_PORT ==> !ours.on)
  {}

  ghost predicate LinkAt(sender: OptTable, receiver: OptTable, forth: seq<Packet>, back: seq<Packet>, option: byte) {
    Settling(sender[option as int].ours, receiver[option as int].theirs,
             Under(forth, WILL, option), Under(back, DO, option), option)
  }

  ghost predicate Links(sender: OptTable, receiver: OptTable, forth: seq<Packet>, back: seq<Packet>) {
    forall option: byte :: LinkAt(sender, receiver, forth, back, option)
  }

  // ---------- One delivery ----------

  /** What a delivered offer changes: its own entry, on that side; and it may be answered. */
  lemma OfferAnswered(table: OptTable, m: OptMsg)
    requires m.verb == WILL || m.verb == DO
    ensures var now := Answer(table, m);
            var opt, opt' := table[m.option as int], now.table[m.option as int];
            var n := if m.verb == WILL then Request(opt.theirs, Supported(m.option), DO, DONT)
                     else Request(opt.ours, Supported(m.option), WILL, WONT);
            && (forall i :: 0 <= i < 256 && i != m.option as int ==> now.table[i] == table[i])
            && opt' == (if m.verb == WILL then opt.(theirs := n.half) else opt.(ours := n.half))
            && now.replies == if n.reply.Some? then [OptMsg(n.reply.value, m.option)] else []
  {}

  /** The peer's offer arrives: the link it came over. */
  lemma WillKeepsLinks(sender: OptTable, receiver: OptTable, forth: seq<Packet>, back: seq<Packet>, m: OptMsg)
    requires Links(sender, receiver, forth, back) && forth != [] && forth[0] == Message(m) && m.verb == WILL
    ensures var now := Answer(receiver, m);
            && Links(sender, now.table, forth[1..], back + Packets(now.replies))
            && now.replies == (if m.option == ECHO then [OptMsg(DO, ECHO)] else [])
            && now.table[m.option as int].theirs.on && (m.option == ECHO ==> !receiver[ECHO as int].theirs.on)
  {
    hide Settling, Answer, Packets, Under;
    OfferAnswered(receiver, m);
    var now := Answer(receiver, m);
    var o := m.option;
    UnderHead(forth, WILL, o);
    assert LinkAt(sender, receiver, forth, back, o);
    WillDelivered(sender[o as int].ours, receiver[o as int].theirs, Under(forth, WILL, o), Under(back, DO, o), o);
    forall option: byte ensures LinkAt(sender, now.table, forth[1..], back + Packets(now.replies), option) {
      assert LinkAt(sender, receiver, forth, back, option);
      UnderHead(forth, WILL, option);
      UnderAppended(back, Packets(now.replies), DO, option);
      UnderReplies(now.replies, DO, option);
    }
  }

  /** The peer's request arrives: the link it answers on. */
  lemma DoKeepsLinks(sender: OptTable, receiver: OptTable, forth: seq<Packet>, back: seq<Packet>, m: OptMsg)
    requires Links(sender, receiver, forth, back) && back != [] && back[0] == Message(m) && m.verb == DO
    ensures var now := Answer(sender, m);
            && Links(now.table, receiver, forth + Packets(now.replies), back[1..])
            && now.replies == (if m.option == COM_PORT then [OptMsg(WILL, COM_PORT)] else [])
            && now.table[m.option as int].ours.on && (m.option == COM_PORT ==> !sender[COM_PORT as int].ours.on)
  {
    hide Settling, Answer, Packets, Under;
    OfferAnswered(sender, m);
    var now := Answer(sender, m);
    var o := m.option;
    UnderHead(back, DO, o);
    assert LinkAt(sender, receiver, forth, back, o);
    DoDelivered(sender[o as int].ours, receiver[o as int].theirs, Under(forth, WILL, o), Under(back, DO, o), o);
    forall option: byte ensures LinkAt(now.table, receiver, forth + Packets(now.replies), back[1..], option) {
      assert LinkAt(sender, receiver, forth, back, option);
      UnderHead(back, DO, option);
      UnderAppended(forth, Packets(now.replies), WILL, option);
      UnderReplies(now.replies, WILL, option);
    }
  }

  /** The link in the other direction does not notice. */
  lemma OtherLinkKept(p: Pair, m: OptMsg)
    requires Converging(p) && p.toA != [] && p.toA[0] == Message(m)
    ensures var now := Answer(p.a, m);
            var toB := p.toB + Packets(now.replies);
            && (m.verb == WILL ==> Links(now.table, p.b, toB, p.toA[1..]))
            && (m.verb == DO ==> Links(p.b, now.table, p.toA[1..], toB))
  {
    hide Settling, Answer, Packets, Under;
    OfferAnswered(p.a, m);
    if m.verb == WILL {
      WillKeepsLinks(p.b, p.a, p.toA, p.toB, m);
    } else {
      DoKeepsLinks(p.a, p.b, p.toB, p.toA, m);
    }
    var now := Answer(p.a, m);
    forall option: byte
      ensures m.verb == WILL ==> LinkAt(now.table, p.b, p.toB + Packets(now.replies), p.toA[1..], option)
      ensures m.verb == DO ==> LinkAt(p.b, now.table, p.toA[1..], p.toB + Packets(now.replies), option)
    {
      assert LinkAt(p.a, p.b, p.toB, p.toA, option) && LinkAt(p.b, p.a, p.toA, p.toB, option);
      UnderHead(p.toA, DO, option);
      UnderHead(p.toA, WILL, option);
      UnderAppended(p.toB, Packets(now.replies), DO, option);
      UnderAppended(p.toB, Packets(now.replies), WILL, option);
      UnderReplies(now.replies, DO, option);
      UnderReplies(now.replies, WILL, option);
    }
  }

  lemma BulkKeepsLinks(p: Pair, data: seq<byte>)
    requires Converging(p)
    ensures p.toA != [] && p.toA[0].Bulk? ==> Links(p.a, p.b, p.toB, p.toA[1..]) && Links(p.b, p.a, p.toA[1..], p.toB)
    ensures var toB := p.toB + [Bulk(data)]; Links(p.a, p.b, toB, p.toA) && Links(p.b, p.a, p.toA, toB)
  {
    hide Settling;
    forall option: byte
      ensures p.toA != [] && p.toA[0].Bulk? ==>
                LinkAt(p.a, p.b, p.toB, p.toA[1..], option) && LinkAt(p.b, p.a, p.toA[1..], p.toB, option)
      ensures var toB := p.toB + [Bulk(data)];
              LinkAt(p.a, p.b, toB, p.toA, option) && LinkAt(p.b, p.a, p.toA, toB, option)
    {
      assert LinkAt(p.a, p.b, p.toB, p.toA, option) && LinkAt(p.b, p.a, p.toA, p.toB, option);
      UnderAppended(p.toB, [Bulk(data)], DO, option);
      UnderAppended(p.toB, [Bulk(data)], WILL, option);
      if p.toA != [] {
        UnderHead(p.toA, DO, option);
        UnderHead(p.toA, WILL, option);
      }
    }
  }

  lemma RepliedGrows(table: OptTable, m: OptMsg)
    requires m.verb == WILL || m.verb == DO
    requires var now := Answer(table, m);
             && (m.verb == WILL ==>
                   && now.replies == (if m.option == ECHO then [OptMsg(DO, ECHO)] else [])
                   && now.table[m.option as int].theirs.on && (m.option == ECHO ==> !table[ECHO as int].theirs.on))
             && (m.verb == DO ==>
                   && now.replies == (if m.option == COM_PORT then [OptMsg(WILL, COM_PORT)] else [])
                   && now.table[m.option as int].ours.on && (m.option == COM_PORT ==> !table[COM_PORT as int].ours.on))
    ensures var now := Answer(table, m); Replied(now.table) == Replied(table) + |now.replies|
    ensures OnlyOffers(Packets(Answer(table, m).replies))
  {
    OfferAnswered(table, m);
    hide Answer;
    var replies := Answer(table, m).replies;
    assert replies != [] ==> replies[1..] == [];
  }

  /** A delivery keeps everything, and uses up exactly one option command if it delivers one. */
  lemma DeliveryConverges(p: Pair)
    requires Converging(p) && p.toA != []
    ensures var q := DeliverA(p);
            Converging(q) && Remaining(q) + (if p.toA[0].Message? then 1 else 0) == Remaining(p)
  {
    hide Links, Answer, Replied, Packets, Under;
    if p.toA[0].Bulk? {
      BulkKeepsLinks(p, []);
    } else {
      var m := p.toA[0].m;
      OtherLinkKept(p, m);
      if m.verb == WILL {
        WillKeepsLinks(p.b, p.a, p.toA, p.toB, m);
      } else {
        DoKeepsLinks(p.a, p.b, p.toB, p.toA, m);
      }
      RepliedGrows(p.a, m);
      InFlightReplies(p.toB, Answer(p.a, m).replies);
    }
  }

  lemma InFlightReplies(packets: seq<Packet>, replies: seq<OptMsg>)
    requires |replies| <= 1
    ensures InFlight(packets + Packets(replies)) == InFlight(packets) + |replies|
  {
    if replies == [] {
      assert packets + Packets(replies) == packets;
    } else {
      assert replies[1..] == [] && Packets(replies) == [Message(replies[0])];
      InFlightAppended(packets, Message(replies[0]));
    }
  }

  lemma {:induction false} InFlightAppended(packets: seq<Packet>, packet: Packet)
    ensures InFlight(packets + [packet]) == InFlight(packets) + if packet.Message? then 1 else 0
  {
    if packets != [] {
      assert (packets + [packet])[1..] == packets[1..] + [packet];
      InFlightAppended(packets[1..], packet);
    }
  }

  /** Option commands still to be delivered: those under way and the replies they will cause. */
  function Remaining(p: Pair): int {
    (8 - p.sentByA) + (8 - p.sentByB) + InFlight(p.toA) + InFlight(p.toB)
  }

  lemma NextConverges(p: Pair, action: Action)
    requires Converging(p) && Possible(p, action)
    ensures var q := Next(p, action);
            Converging(q) && Remaining(q) + Delivered(p, [action]) == Remaining(p)
  {
    hide Links, InFlight;
    assert [action][1..] == [];
    match action {
      case DeliverToA => DeliveryConverges(p);
      case DeliverToB => DeliveryConverges(p.Swapped());
      case DataFromA(data) => BulkKeepsLinks(p, data); InFlightAppended(p.toB, Bulk(data));
      case DataFromB(data) => BulkKeepsLinks(p.Swapped(), data); InFlightAppended(p.toA, Bulk(data));
    }
  }

  // ---------- Whole runs ----------

  lemma PacketsCons(m: OptMsg, rest: seq<OptMsg>)
    ensures Packets([m] + rest) == [Message(m)] + Packets(rest)
  {
    assert ([m] + rest)[1..] == rest;
  }

  lemma PacketsOfOffers()
    ensures Packets(OFFERS) ==
      [Message(OptMsg(WILL, TRANSMIT_BINARY)), Message(OptMsg(DO, TRANSMIT_BINARY)), Message(OptMsg(WILL, ECHO)),
       Message(OptMsg(WILL, SUPPRESS_GO_AHEAD)), Message(OptMsg(DO, SUPPRESS_GO_AHEAD)), Message(OptMsg(DO, COM_PORT))]
  {
    var o5 := [OptMsg(DO, COM_PORT)] + [];
    var o4 := [OptMsg(DO, SUPPRESS_GO_AHEAD)] + o5;
    var o3 := [OptMsg(WILL, SUPPRESS_GO_AHEAD)] + o4;
    var o2 := [OptMsg(WILL, ECHO)] + o3;
    var o1 := [OptMsg(DO, TRANSMIT_BINARY)] + o2;
    PacketsCons(OptMsg(DO, COM_PORT), []);
    assert Packets([]) == [];
    hide Packets;
    PacketsCons(OptMsg(DO, SUPPRESS_GO_AHEAD), o5);
    PacketsCons(OptMsg(WILL, SUPPRESS_GO_AHEAD), o4);
    PacketsCons(OptMsg(WILL, ECHO), o3);
    PacketsCons(OptMsg(DO, TRANSMIT_BINARY), o2);
    PacketsCons(OptMsg(WILL, TRANSMIT_BINARY), o1);
    assert OFFERS == [OptMsg(WILL, TRANSMIT_BINARY)] + o1;
  }

  lemma OffersUnder(option: byte)
    ensures Under(Packets(OFFERS), WILL, option)
         == if option == TRANSMIT_BINARY || option == ECHO || option == SUPPRESS_GO_AHEAD then 1 else 0
    ensures Under(Packets(OFFERS), DO, option)
         == if option == TRANSMIT_BINARY || option == SUPPRESS_GO_AHEAD || option == COM_PORT then 1 else 0
  {
    PacketsOfOffers();
    hide Packets;
  }

  lemma StartLinks()
    ensures Links(InitialOptions(), InitialOptions(), Packets(OFFERS), Packets(OFFERS))
  {
    hide Packets, Under, OFFERS;
    forall option: byte
      ensures LinkAt(InitialOptions(), InitialOptions(), Packets(OFFERS), Packets(OFFERS), option)
    {
      OffersUnder(option);
    }
  }

  lemma StartPackets()
    ensures OnlyOffers(Packets(OFFERS)) && InFlight(Packets(OFFERS)) == 6
  {
    PacketsOfOffers();
    hide Packets, InFlight;
    InFlightOfOffers(Packets(OFFERS));
  }

  lemma NothingRepliedYet()
    ensures Replied(InitialOptions()) == 0
  {}

  lemma StartConverges()
    ensures Converging(Start()) && Remaining(Start()) == 16
  {
    StartLinks();
    StartPackets();
    NothingRepliedYet();
    hide Links, Packets, InFlight, OnlyOffers, Replied, InitialOptions;
  }

  lemma {:induction false} InFlightOfOffers(packets: seq<Packet>)
    requires forall packet <- packets :: packet.Message?
    ensures InFlight(packets) == |packets|
  {
    if packets != [] {
      InFlightOfOffers(packets[1..]);
    }
  }

  lemma {:induction false} RunConverges(p: Pair, actions: seq<Action>)
    requires Converging(p) && Run(p, actions).Some?
    ensures var q := Run(p, actions).value; Converging(q) && Remaining(q) + Delivered(p, actions) == Remaining(p)
    decreases |actions|
  {
    hide Converging, Remaining, Next;
    if actions != [] {
      NextConverges(p, actions[0]);
      assert [actions[0]][1..] == [];
      RunConverges(Next(p, actions[0]), actions[1..]);
    }
  }

  lemma {:induction false} NothingUnder(packets: seq<Packet>, verb: byte, option: byte)
    requires InFlight(packets) == 0
    ensures Under(packets, verb, option) == 0
  {
    if packets != [] {
      NothingUnder(packets[1..], verb, option);
      UnderHead(packets, verb, option);
    }
  }

  /** Every supported option is on in both directions at this end, and nothing is awaited. */
  ghost predicate Agreed(table: OptTable) {
    forall option: byte :: table[option as int] == if Supported(option) then Opt(ON, ON) else Opt(OFF, OFF)
  }

  lemma QuietOptionIsAgreed(p: Pair, option: byte)
    requires Converging(p) && InFlight(p.toA) == InFlight(p.toB) == 0
    ensures p.a[option as int] == p.b[option as int] == if Supported(option) then Opt(ON, ON) else Opt(OFF, OFF)
  {
    NothingUnder(p.toA, WILL, option);
    NothingUnder(p.toA, DO, option);
    NothingUnder(p.toB, WILL, option);
    NothingUnder(p.toB, DO, option);
    assert LinkAt(p.a, p.b, p.toB, p.toA, option) && LinkAt(p.b, p.a, p.toA, p.toB, option);
  }

  lemma QuietIsAgreed(p: Pair)
    requires Converging(p) && InFlight(p.toA) == InFlight(p.toB) == 0
    ensures Agreed(p.a) && Agreed(p.b) && p.sentByA == 8 && p.sentByB == 8
  {
    hide Links, InFlight;
    forall option: byte
      ensures p.a[option as int] == p.b[option as int] == if Supported(option) then Opt(ON, ON) else Opt(OFF, OFF)
    {
      QuietOptionIsAgreed(p, option);
    }
    QuietOptionIsAgreed(p, ECHO);
    QuietOptionIsAgreed(p, COM_PORT);
  }

  /**
   * In every run exactly sixteen option commands are delivered by the time none is under way, never more; then
   * each end has sent eight and every supported option is on in both directions at both ends.
   */
  lemma NegotiationConverges(actions: seq<Action>)
    requires Run(Start(), actions).Some?
    ensures var p := Run(Start(), actions).value;
            var quiet := InFlight(p.toA) == InFlight(p.toB) == 0;
            && p.sentByA <= 8 && p.sentByB <= 8
            && Delivered(Start(), actions) <= 16
            && (quiet <==> Delivered(Start(), actions) == 16)
            && (quiet ==> Agreed(p.a) && Agreed(p.b) && p.sentByA == p.sentByB == 8)
  {
    hide Links, InFlight, Start, Agreed;
    StartConverges();
    RunConverges(Start(), actions);
    var p := Run(Start(), actions).value;
    if InFlight(p.toA) == InFlight(p.toB) == 0 {
      QuietIsAgreed(p);
    }
  }

  /** Packets under way and replies still to come: every delivery takes one away. */
  function Backlog(p: Pair): int { |p.toA| + |p.toB| + (8 - p.sentByA) + (8 - p.sentByB) }

  /**
   * Once no more data is sent, deliveries in any order end after exactly the backlog they found, and only with
   * both channels empty.
   */
  lemma {:induction false} DeliveriesRunOut(p: Pair, actions: seq<Action>)
    requires Converging(p) && Run(p, actions).Some?
    requires forall action <- actions :: action.DeliverToA? || action.DeliverToB?
    ensures var q := Run(p, actions).value;
            && |actions| + Backlog(q) == Backlog(p)
            && (Possible(q, DeliverToA) || Possible(q, DeliverToB) <==> Backlog(q) > 0)
    decreases |actions|
  {
    hide Links, DeliverA;
    if actions == [] {
      if p.toA == p.toB == [] {
        QuietIsAgreed(p);
      }
    } else {
      NextConverges(p, actions[0]);
      DeliveriesRunOut(Next(p, actions[0]), actions[1..]);
      DeliveryTakesOne(if actions[0].DeliverToA? then p else p.Swapped());
    }
  }

  lemma DeliveryTakesOne(p: Pair)
    requires p.toA != []
    ensures Backlog(DeliverA(p)) == Backlog(p) - 1
  {
    if p.toA[0].Message? {
      var replies := Answer(p.a, p.toA[0].m).replies;
      if replies != [] {
        assert replies[1..] == [] && Packets(replies) == [Message(replies[0])];
      }
    }
  }
}
