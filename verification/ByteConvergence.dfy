/**
 * The two endpoints joined by channels of bytes, read in pieces of any length: the receivers' states between two
 * bytes stand for packets partly delivered, so the bytes settle just as the packets do.
 */
module ByteConvergence {
  import opened Wrappers
  import opened Bitwise
  import opened Telnet
  import opened TelnetStreams
  import opened Negotiation
  import opened Convergence

  datatype End = End(server: Server, receiver: Receiver)

  /** Two endpoints and the bytes under way to each. */
  datatype Link = Link(a: End, b: End, toA: seq<byte>, toB: seq<byte>)
  {
    /** The same link seen from the other end. */
    function Swapped(): Link { Link(b, a, toB, toA) }
  }

  /** One byte is read at one end, or one byte of data written at it; a longer read or write is several of them. */
  datatype Step = ReadAtA | ReadAtB | WriteAtA(c: byte) | WriteAtB(c: byte)

  ghost predicate Ends(l: Link) { Sound(l.a.server, l.a.receiver) && Sound(l.b.server, l.b.receiver) }

  function ReadA(l: Link): (next: Link)
    requires Ends(l) && l.toA != []
    ensures Ends(next)
  {
    var out := EscRedirectChar(l.a.server, l.a.receiver, l.toA[0]);
    Link(End(out.server, out.receiver), l.b, l.toA[1..], l.toB + out.net)
  }

  function WriteA(l: Link, c: byte): (next: Link)
    requires Ends(l)
    ensures Ends(next)
  {
    var s := l.a.server;
    l.(a := End(s.(last := c), l.a.receiver), toB := l.toB + EscWrite(s.SendsBinary(), s.last, c))
  }

  predicate CanTake(l: Link, step: Step) { (step.ReadAtA? ==> l.toA != []) && (step.ReadAtB? ==> l.toB != []) }

  function Take(l: Link, step: Step): (next: Link)
    requires Ends(l) && CanTake(l, step)
    ensures Ends(next)
  {
    match step
    case ReadAtA => ReadA(l)
    case ReadAtB => ReadA(l.Swapped()).Swapped()
    case WriteAtA(c) => WriteA(l, c)
    case WriteAtB(c) => WriteA(l.Swapped(), c).Swapped()
  }

  /** What one step reads, and what it writes of data. */
  function BytesRead(step: Step): nat { if step.ReadAtA? || step.ReadAtB? then 1 else 0 }

  function BytesWritten(l: Link, step: Step): nat {
    match step
    case WriteAtA(c) => |EscWrite(l.a.server.SendsBinary(), l.a.server.last, c)|
    case WriteAtB(c) => |EscWrite(l.b.server.SendsBinary(), l.b.server.last, c)|
    case _ => 0
  }

  /** The link after these steps, and the bytes they read and wrote. */
  datatype Outcome = Outcome(link: Link, read: nat, written: nat)

  function TakeAll(l: Link, steps: seq<Step>): (out: Option<Outcome>)
    requires Ends(l)
    ensures out.Some? ==> Ends(out.value.link)
    decreases |steps|
  {
    if steps == [] then Some(Outcome(l, 0, 0))
    else if !CanTake(l, steps[0]) then None
    else
      var rest := TakeAll(Take(l, steps[0]), steps[1..]);
      if rest.None? then None
      else Some(Outcome(rest.value.link, BytesRead(steps[0]) + rest.value.read,
                        BytesWritten(l, steps[0]) + rest.value.written))
  }

  // ---------- Packets and their bytes ----------

  /** A packet of one option command, or of one byte of data. */
  predicate IsUnit(packet: Packet) {
    match packet
    case Message(m) => IsOptionVerb(m.verb)
    case Bulk(data) => |data| == 1
  }

  function UnitBytes(packet: Packet): seq<byte> {
    match packet
    case Message(m) => [IAC, m.verb, m.option]
    case Bulk(data) => if data == [IAC] then [IAC, IAC] else data
  }

  function WireOfUnits(packets: seq<Packet>): seq<byte> {
    if packets == [] then [] else UnitBytes(packets[0]) + WireOfUnits(packets[1..])
  }

  lemma {:induction false} UnitsAppend(a: seq<Packet>, b: seq<Packet>)
    ensures WireOfUnits(a + b) == WireOfUnits(a) + WireOfUnits(b)
  {
    if a == [] {
      assert a + b == b;
    } else {
      assert (a + b)[0] == a[0] && (a + b)[1..] == a[1..] + b;
      UnitsAppend(a[1..], b);
    }
  }

  lemma {:induction false} MessagesOnTheWire(ms: seq<OptMsg>)
    requires forall m <- ms :: IsOptionVerb(m.verb)
    ensures WireOfUnits(Convergence.Packets(ms)) == Bytes(ms)
    ensures forall packet <- Convergence.Packets(ms) :: IsUnit(packet)
  {
    if ms != [] {
      assert ms[0] in ms && forall m <- ms[1..] :: m in ms;
      MessagesOnTheWire(ms[1..]);
      var rest := Convergence.Packets(ms[1..]);
      assert ([Message(ms[0])] + rest)[1..] == rest;
    }
  }

  /**
   * The receiver and the bytes under way to it hold these packets, of the first of which k bytes have been read.
   */
  ghost predicate Holds(r: Receiver, wire: seq<byte>, packets: seq<Packet>, k: nat) {
    && (forall packet <- packets :: IsUnit(packet))
    && (if packets == [] then k == 0 else k < |UnitBytes(packets[0])|)
    && k <= |WireOfUnits(packets)| && wire == WireOfUnits(packets)[k..]
    && (if k == 0 then r.esc == Normal
        else if k == 1 then r.esc == Received && UnitBytes(packets[0])[0] == IAC
        else k == 2 && r.esc == Receiving && packets[0].Message? && r.command == [IAC, packets[0].m.verb])
  }

  /** Where the packets stand when the bytes stand as in this link. */
  ghost predicate Stands(l: Link, p: Pair, j: nat, k: nat) {
    && p.a == l.a.server.options && p.b == l.b.server.options
    && Holds(l.a.receiver, l.toA, p.toA, j) && Holds(l.b.receiver, l.toB, p.toB, k)
  }

  // ---------- One byte read ----------

  /** The first packet is still under way after this byte. */
  lemma ByteInside(s: Server, r: Receiver, wire: seq<byte>, packets: seq<Packet>, k: nat)
    requires Sound(s, r) && Holds(r, wire, packets, k) && wire != [] && packets != []
    requires k + 1 < |UnitBytes(packets[0])|
    ensures var out := EscRedirectChar(s, r, wire[0]);
            out.server == s && out.net == [] && Holds(out.receiver, wire[1..], packets, k + 1)
  {
    assert wire[0] == UnitBytes(packets[0])[k] && packets[0] in packets;
    hide HandleIACCommand, WireOfUnits;
  }

  /** The byte is the last of the first packet. */
  lemma ByteCompletes(s: Server, r: Receiver, wire: seq<byte>, packets: seq<Packet>, k: nat)
    requires Sound(s, r) && Holds(r, wire, packets, k) && wire != [] && packets != []
    requires k + 1 == |UnitBytes(packets[0])|
    ensures var out := EscRedirectChar(s, r, wire[0]);
            && Holds(out.receiver, wire[1..], packets[1..], 0)
            && (if packets[0].Message? then
                  var answered := Answer(s.options, packets[0].m);
                  out.server == s.(options := answered.table) && out.net == Bytes(answered.replies)
                else out.server == s && out.net == [])
  {
    assert wire[0] == UnitBytes(packets[0])[k] && packets[0] in packets;
    var rest := packets[1..];
    assert forall packet <- rest :: packet in packets;
    FirstUnit(rest);
    assert wire[1..] == WireOfUnits(rest)[0..];
    if packets[0].Message? {
      OptionReplyBytes(s, packets[0].m);
    }
    hide HandleIACCommand, WireOfUnits, Answer, Bytes, Dispatchable;
    var out := EscRedirectChar(s, r, wire[0]);
    assert out.receiver.esc == Normal;
  }

  lemma NothingHeldNothingRead(r: Receiver, wire: seq<byte>, packets: seq<Packet>, k: nat)
    requires Holds(r, wire, packets, k)
    ensures wire == [] <==> packets == []
    ensures packets == [] ==> k == 0
  {}

  lemma HoldsMore(r: Receiver, wire: seq<byte>, packets: seq<Packet>, k: nat, more: seq<Packet>)
    requires Holds(r, wire, packets, k) && forall packet <- more :: IsUnit(packet)
    ensures Holds(r, wire + WireOfUnits(more), packets + more, k)
  {
    UnitsAppend(packets, more);
    hide WireOfUnits, UnitBytes, IsUnit;
    if packets == [] {
      FirstUnit(more);
    }
  }

  lemma FirstUnit(packets: seq<Packet>)
    requires packets != [] ==> IsUnit(packets[0])
    ensures packets != [] ==> |UnitBytes(packets[0])| > 0
  {}

  /** A byte read at A: the packets stay as they are, or the first is delivered. */
  lemma ReadFollows(l: Link, p: Pair, j: nat, k: nat) returns (q: Pair, j': nat)
    requires Ends(l) && l.toA != [] && Stands(l, p, j, k) && Converging(p)
    ensures Stands(ReadA(l), q, j', k) && Converging(q)
    ensures |ReadA(l).toB| == |l.toB| + 3 * (q.sentByA - p.sentByA) && q.sentByB == p.sentByB
  {
    NothingHeldNothingRead(l.a.receiver, l.toA, p.toA, j);
    hide EscRedirectChar, Holds, Converging, UnitBytes, DeliverA;
    if j + 1 < |UnitBytes(p.toA[0])| {
      ByteInside(l.a.server, l.a.receiver, l.toA, p.toA, j);
      q, j' := p, j + 1;
      assert l.toB + [] == l.toB;
    } else {
      DeliveryConverges(p);
      DeliveryFollows(l, p, j, k);
      q, j' := DeliverA(p), 0;
    }
  }

  lemma HoldsInside(r: Receiver, wire: seq<byte>, packets: seq<Packet>, k: nat)
    requires Holds(r, wire, packets, k) && packets != []
    ensures k < |UnitBytes(packets[0])| && IsUnit(packets[0])
  {}

  lemma DeliveryFollows(l: Link, p: Pair, j: nat, k: nat)
    requires Ends(l) && l.toA != [] && p.toA != [] && Stands(l, p, j, k) && Converging(p)
    requires j + 1 >= |UnitBytes(p.toA[0])|
    ensures var q := DeliverA(p);
            && Stands(ReadA(l), q, 0, k)
            && |ReadA(l).toB| == |l.toB| + 3 * (q.sentByA - p.sentByA) && q.sentByB == p.sentByB
  {
    HoldsInside(l.a.receiver, l.toA, p.toA, j);
    hide EscRedirectChar, Holds, Converging, UnitBytes, Answer;
    ByteCompletes(l.a.server, l.a.receiver, l.toA, p.toA, j);
    if p.toA[0].Message? {
      var replies := Answer(p.a, p.toA[0].m).replies;
      AnswersAreShort(p.a, p.toA[0].m);
      MessagesOnTheWire(replies);
      HoldsMore(l.b.receiver, l.toB, p.toB, k, Convergence.Packets(replies));
    } else {
      assert l.toB + [] == l.toB;
    }
  }

  lemma AnswersAreShort(table: OptTable, m: OptMsg)
    ensures var replies := Answer(table, m).replies;
            |Bytes(replies)| == 3 * |replies| && forall reply <- replies :: IsOptionVerb(reply.verb)
  {
    var replies := Answer(table, m).replies;
    if replies != [] {
      assert replies[1..] == [];
    }
  }

  // ---------- One byte written ----------

  /** A byte written at A is one packet, or a NUL and it are two. */
  lemma WriteFollows(l: Link, p: Pair, j: nat, k: nat, c: byte) returns (q: Pair)
    requires Ends(l) && Stands(l, p, j, k) && Converging(p)
    ensures Stands(WriteA(l, c), q, j, k) && Converging(q)
    ensures q.sentByA == p.sentByA && q.sentByB == p.sentByB
  {
    var wire := EscWrite(l.a.server.SendsBinary(), l.a.server.last, c);
    hide Holds, Converging;
    if wire == [NUL, c] {
      PlainUnits([NUL, c]);
      q := TwoWritten(p, NUL, c);
      HoldsMore(l.b.receiver, l.toB, p.toB, k, [Bulk([NUL]), Bulk([c])]);
    } else {
      OneUnit(c);
      q := OneWritten(p, c);
      HoldsMore(l.b.receiver, l.toB, p.toB, k, [Bulk([c])]);
    }
  }

  lemma OneUnit(c: byte)
    ensures WireOfUnits([Bulk([c])]) == if c == IAC then [IAC, IAC] else [c]
  {
    assert [Bulk([c])][1..] == [];
  }

  lemma PlainUnits(bytes: seq<byte>)
    requires |bytes| == 2 && IAC !in bytes
    ensures WireOfUnits([Bulk([bytes[0]]), Bulk([bytes[1]])]) == bytes
  {
    OneUnit(bytes[1]);
    assert bytes[0] in bytes && bytes[1] in bytes;
    assert [Bulk([bytes[0]]), Bulk([bytes[1]])][1..] == [Bulk([bytes[1]])];
  }

  lemma OneWritten(p: Pair, c: byte) returns (q: Pair)
    requires Converging(p)
    ensures Converging(q) && q == p.(toB := p.toB + [Bulk([c])])
  {
    NextConverges(p, DataFromA([c]));
    q := Convergence.Next(p, DataFromA([c]));
  }

  lemma TwoWritten(p: Pair, b: byte, c: byte) returns (q: Pair)
    requires Converging(p)
    ensures Converging(q) && q == p.(toB := p.toB + [Bulk([b]), Bulk([c])])
  {
    hide Converging;
    var one := OneWritten(p, b);
    q := OneWritten(one, c);
    assert p.toB + [Bulk([b])] + [Bulk([c])] == p.toB + [Bulk([b]), Bulk([c])];
  }

  // ---------- Whole runs ----------

  lemma SwappedStands(l: Link, p: Pair, j: nat, k: nat)
    ensures Stands(l.Swapped(), p.Swapped(), k, j) <==> Stands(l, p, j, k)
    ensures Converging(p.Swapped()) <==> Converging(p)
  {
    hide Holds, Links;
  }

  /** One step: the packets follow, and the bytes under way are those written and answered and not yet read. */
  lemma StepFollows(l: Link, p: Pair, j: nat, k: nat, step: Step) returns (q: Pair, j': nat, k': nat)
    requires Ends(l) && CanTake(l, step) && Stands(l, p, j, k) && Converging(p)
    ensures Stands(Take(l, step), q, j', k') && Converging(q)
    ensures UnderWay(Take(l, step)) + BytesRead(step) + 3 * (p.sentByA + p.sentByB)
         == UnderWay(l) + BytesWritten(l, step) + 3 * (q.sentByA + q.sentByB)
  {
    hide Holds, Converging, Stands, EscWrite, EscRedirectChar;
    j', k' := j, k;
    SwappedStands(l, p, j, k);
    match step
    case ReadAtA => q, j' := ReadFollows(l, p, j, k);
    case WriteAtA(c) => q := WriteFollows(l, p, j, k, c);
    case ReadAtB =>
      q, k' := ReadFollows(l.Swapped(), p.Swapped(), k, j);
      q := q.Swapped();
      SwappedStands(Take(l, step), q, j, k');
    case WriteAtB(c) =>
      q := WriteFollows(l.Swapped(), p.Swapped(), k, j, c);
      q := q.Swapped();
      SwappedStands(Take(l, step), q, j, k);
  }

  function UnderWay(l: Link): nat { |l.toA| + |l.toB| }

  lemma {:induction false} RunFollows(l: Link, p: Pair, j: nat, k: nat, steps: seq<Step>)
    returns (q: Pair, j': nat, k': nat)
    requires Ends(l) && Stands(l, p, j, k) && Converging(p) && TakeAll(l, steps).Some?
    ensures var out := TakeAll(l, steps).value;
            && Stands(out.link, q, j', k') && Converging(q)
            && UnderWay(out.link) + out.read + 3 * (p.sentByA + p.sentByB)
               == UnderWay(l) + out.written + 3 * (q.sentByA + q.sentByB)
    decreases |steps|
  {
    hide Stands, Converging, Take, BytesRead, BytesWritten, UnderWay;
    if steps == [] {
      q, j', k' := p, j, k;
    } else {
      var mid, m, n := StepFollows(l, p, j, k, steps[0]);
      q, j', k' := RunFollows(Take(l, steps[0]), mid, m, n, steps[1..]);
    }
  }

  /** Each end outside any command, and its six offers under way to the other. */
  ghost predicate JustOffered(l: Link) {
    && l.toA == l.toB == INITIAL_OFFERS
    && l.a.server.options == l.b.server.options == InitialOptions()
    && l.a.receiver.esc == l.b.receiver.esc == Normal
  }

  lemma OffersHeld(r: Receiver)
    requires r.esc == Normal
    ensures Holds(r, INITIAL_OFFERS, Convergence.Packets(OFFERS), 0)
  {
    assert forall m <- OFFERS :: IsOptionVerb(m.verb);
    MessagesOnTheWire(OFFERS);
    OffersOnTheWire();
    PacketsOfOffers();
    var packets := Convergence.Packets(OFFERS);
    assert |UnitBytes(packets[0])| == 3;
    hide WireOfUnits, Bytes, Convergence.Packets, OFFERS, INITIAL_OFFERS, UnitBytes, IsUnit;
    assert WireOfUnits(packets)[0..] == INITIAL_OFFERS;
  }

  lemma OffersStand(l: Link)
    requires Ends(l) && JustOffered(l)
    ensures Stands(l, Start(), 0, 0) && Converging(Start())
  {
    StartConverges();
    OffersHeld(l.a.receiver);
    OffersHeld(l.b.receiver);
    hide Holds, Converging, Convergence.Packets, OFFERS, INITIAL_OFFERS, InitialOptions;
  }

  lemma SentAtMostEight(p: Pair)
    requires Converging(p)
    ensures p.sentByA <= 8 && p.sentByB <= 8
  {
    hide Links;
  }

  lemma StartCounts(l: Link)
    requires JustOffered(l)
    ensures UnderWay(l) == 36 && Start().sentByA == Start().sentByB == 6
  {}

  lemma QuietEnds(l: Link, p: Pair, j: nat, k: nat)
    requires Stands(l, p, j, k) && Converging(p)
    ensures p.sentByA <= 8 && p.sentByB <= 8
    ensures l.toA == l.toB == [] ==>
              p.sentByA == p.sentByB == 8 && Agreed(l.a.server.options) && Agreed(l.b.server.options)
  {
    SentAtMostEight(p);
    hide Converging, Holds, Agreed;
    if l.toA == l.toB == [] {
      NothingHeldNothingRead(l.a.receiver, l.toA, p.toA, j);
      NothingHeldNothingRead(l.b.receiver, l.toB, p.toB, k);
      QuietIsAgreed(p);
    }
  }

  /**
   * Two endpoints, each reading its bytes in pieces of any length and writing data whenever it likes in whatever
   * mode it is in: besides the data never more than forty-eight bytes are read, and when exactly so many are,
   * nothing is under way and every supported option is on in both directions at both ends.
   */
  lemma BytesConverge(l: Link, steps: seq<Step>)
    requires Ends(l) && JustOffered(l) && TakeAll(l, steps).Some?
    ensures var out := TakeAll(l, steps).value;
            var quiet := out.link.toA == out.link.toB == [];
            && out.read <= 48 + out.written
            && (quiet <==> out.read == 48 + out.written)
            && (quiet ==> Agreed(out.link.a.server.options) && Agreed(out.link.b.server.options))
  {
    hide JustOffered, Ends, Sound, Converging, Stands, TakeAll, Agreed, Start;
    OffersStand(l);
    StartCounts(l);
    var q, j, k := RunFollows(l, Start(), 0, 0, steps);
    QuietEnds(TakeAll(l, steps).value.link, q, j, k);
  }
}
