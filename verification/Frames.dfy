/** The resynchronising frame parser of SerialFrameParser.kt. */
module Frames {
  import opened Wrappers
  import opened Bitwise
  import opened Checksums

  datatype ByteOrder = BigEndian | LittleEndian

  datatype FrameConfig = FrameConfig(
    header: seq<byte>,
    lengthOffset: int,
    lengthSize: int,
    lengthByteOrder: ByteOrder,
    lengthIncludesHeader: bool,
    footer: seq<byte>,
    checksum: Option<Checksum>,
    checksumSize: int,
    checksumOffset: Option<int>,
    minimumFrameSize: int,
    maximumFrameSize: int,
    maximumBufferSize: int)
  {
    /** What the constructor insists on; Ints and array sizes are below 2^31. */
    ghost predicate Valid() {
      && header != []
      && lengthOffset >= 0 && 1 <= lengthSize <= 4
      && minimumFrameSize >= |header| && maximumFrameSize >= minimumFrameSize
      && maximumBufferSize >= maximumFrameSize
      && checksumSize >= 0
      && lengthOffset < 0x8000_0000 && maximumBufferSize < 0x8000_0000
    }
  }

  datatype FrameParseError = InvalidLength | Oversized | ChecksumMismatch | FooterMismatch

  /** What one turn of the loop reports: a frame or an error. */
  datatype Event = Frame(bytes: seq<byte>) | Fault(error: FrameParseError)

  // ---------- Pieces of the loop ----------

  predicate StartsAt(s: seq<byte>, header: seq<byte>, i: int) {
    0 <= i && i + |header| <= |s| && s[i..i + |header|] == header
  }

  /** The first index at or after `from` where the header occurs, or -1. */
  function FirstFrom(s: seq<byte>, header: seq<byte>, from: nat): (start: int)
    ensures start < 0 ==> start == -1 && forall i :: from <= i < |s| ==> !StartsAt(s, header, i)
    ensures start >= 0 ==> from <= start < |s| && StartsAt(s, header, start)
                           && forall i :: from <= i < start ==> !StartsAt(s, header, i)
    decreases |s| - from
  {
    if from >= |s| then -1
    else if StartsAt(s, header, from) then from
    else FirstFrom(s, header, from + 1)
  }

  function IndexOfHeader(s: seq<byte>, header: seq<byte>): (start: int)
    ensures -1 <= start && (start >= 0 ==> start + |header| <= |s|)
  {
    FirstFrom(s, header, 0)
  }

  function TakeLast<T>(s: seq<T>, n: nat): seq<T> { if |s| <= n then s else s[|s| - n..] }

  /** The length field as an unsigned number. */
  function Unsigned(field: seq<byte>, order: ByteOrder): nat {
    if field == [] then 0
    else if order.BigEndian? then 256 * Unsigned(field[..|field| - 1], order) + field[|field| - 1] as nat
    else field[0] as nat + 256 * Unsigned(field[1..], order)
  }

  function FrameSize(config: FrameConfig, s: seq<byte>): int
    requires 0 <= config.lengthOffset && 0 <= config.lengthSize
    requires config.lengthOffset + config.lengthSize <= |s|
  {
    var declared := ToInt(Unsigned(s[config.lengthOffset..config.lengthOffset + config.lengthSize],
        config.lengthByteOrder));
    if config.lengthIncludesHeader then declared else ToInt(declared + |config.header| + config.lengthSize)
  }

  predicate HasChecksumAt(s: seq<byte>, checksum: Checksum, size: int, offset: Option<int>) {
    size != 0 && |s| >= size &&
    var position := if offset.Some? then offset.value else |s| - size;
    0 <= position && position + size <= |s| && size >= 0 &&
    checksum(s[..position] + s[position + size..]) == s[position..position + size]
  }

  /** The two tests a complete frame must pass. */
  function Verdict(config: FrameConfig, frame: seq<byte>): Event {
    if config.footer != [] && TakeLast(frame, |config.footer|) != config.footer then Fault(FooterMismatch)
    else if config.checksum.Some?
         && !HasChecksumAt(frame, config.checksum.value, config.checksumSize, config.checksumOffset) then
      Fault(ChecksumMismatch)
    else Frame(frame)
  }

  /** One turn of the loop: it stops, keeping something for later, or reports and goes on with the rest. */
  datatype Turn = Stop(kept: seq<byte>) | Report(event: Event, rest: seq<byte>)

  function NextTurn(config: FrameConfig, pending: seq<byte>): (turn: Turn)
    requires config.Valid()
    ensures turn.Report? ==> |turn.rest| < |pending|
  {
    var start := IndexOfHeader(pending, config.header);
    if start < 0 then Stop(TakeLast(pending, |config.header| - 1))
    else AtHeader(config, pending[start..])
  }

  function AtHeader(config: FrameConfig, s: seq<byte>): (turn: Turn)
    requires config.Valid() && StartsAt(s, config.header, 0)
    ensures turn.Report? ==> |turn.rest| < |s|
  {
    if |s| < config.lengthOffset + config.lengthSize then Stop(s)
    else
      var size := FrameSize(config, s);
      if size < config.minimumFrameSize then Report(Fault(InvalidLength), s[|config.header|..])
      else if size > config.maximumFrameSize then Report(Fault(Oversized), s[|config.header|..])
      else if |s| < size then Stop(s)
      else Report(Verdict(config, s[..size]), s[size..])
  }

  datatype Parsed = Parsed(events: seq<Event>, kept: seq<byte>)

  /** The whole loop. */
  function Drain(config: FrameConfig, pending: seq<byte>): Parsed
    requires config.Valid()
    decreases |pending|
  {
    match NextTurn(config, pending)
    case Stop(kept) => Parsed([], kept)
    case Report(event, rest) =>
      var later := Drain(config, rest);
      Parsed([event] + later.events, later.kept)
  }

  function FrameIn(event: Event): seq<seq<byte>> { if event.Frame? then [event.bytes] else [] }

  function ErrorIn(event: Event): seq<FrameParseError> { if event.Fault? then [event.error] else [] }

  function FramesOf(events: seq<Event>): seq<seq<byte>> {
    if events == [] then [] else FrameIn(events[0]) + FramesOf(events[1..])
  }

  function ErrorsOf(events: seq<Event>): seq<FrameParseError> {
    if events == [] then [] else ErrorIn(events[0]) + ErrorsOf(events[1..])
  }

  /** The bytes one offer looks at: what was pending and what came, clipped to the buffer limit. */
  function Clipped(config: FrameConfig, pending: seq<byte>, bytes: seq<byte>): seq<byte>
    requires config.Valid()
  {
    TakeLast(pending + bytes, config.maximumBufferSize)
  }

  /** One offer: the whole loop over the clipped bytes. */
  function Offer(config: FrameConfig, pending: seq<byte>, bytes: seq<byte>): Parsed
    requires config.Valid()
  {
    Drain(config, Clipped(config, pending, bytes))
  }

  lemma {:induction false} FramesOfAppend(a: seq<Event>, b: seq<Event>)
    ensures FramesOf(a + b) == FramesOf(a) + FramesOf(b)
    ensures ErrorsOf(a + b) == ErrorsOf(a) + ErrorsOf(b)
  {
    hide FrameIn, ErrorIn;
    if a == [] {
      assert a + b == b;
    } else {
      assert (a + b)[0] == a[0] && (a + b)[1..] == a[1..] + b;
      FramesOfAppend(a[1..], b);
    }
  }

  function Following(events: seq<Event>, later: Parsed): Parsed { Parsed(events + later.events, later.kept) }

  /** Reporting one more event does not change what the whole loop yields. */
  lemma DrainTurn(config: FrameConfig, reported: seq<Event>, pending: seq<byte>)
    requires config.Valid()
    ensures match NextTurn(config, pending)
            case Stop(kept) => Following(reported, Drain(config, pending)) == Parsed(reported, kept)
            case Report(event, rest) =>
              Following(reported, Drain(config, pending)) == Following(reported + [event], Drain(config, rest))
  {
    hide NextTurn;
    match NextTurn(config, pending)
    case Stop(kept) => assert reported + [] == reported;
    case Report(event, rest) =>
      assert reported + ([event] + Drain(config, rest).events) == reported + [event] + Drain(config, rest).events;
  }

  lemma FollowingNothing(later: Parsed)
    ensures Following([], later) == later && FramesOf([]) == [] && ErrorsOf([]) == []
  {
    assert [] + later.events == later.events;
  }

  lemma FramesOfOneMore(events: seq<Event>, event: Event)
    ensures FramesOf(events + [event]) == FramesOf(events) + FrameIn(event)
    ensures ErrorsOf(events + [event]) == ErrorsOf(events) + ErrorIn(event)
  {
    FramesOfAppend(events, [event]);
    assert [event][1..] == [];
  }

  // ---------- The parser itself ----------

  class SerialFrameParser {
    const config: FrameConfig
    var pending: seq<byte>
    var lastErrors: seq<FrameParseError>

    constructor (config: FrameConfig)
      requires config.Valid()
      ensures this.config == config && pending == [] && lastErrors == []
    {
      this.config := config;
      pending := [];
      lastErrors := [];
    }

    /** One turn of the loop: go is false where the source breaks out of it. */
    method TakeTurn() returns (go: bool, event: Event)
      requires config.Valid()
      modifies this`pending
      ensures match NextTurn(config, old(pending))
              case Stop(kept) => !go && pending == kept
              case Report(reported, rest) => go && event == reported && pending == rest
    {
      go, event := false, Fault(InvalidLength);
      var start := IndexOfHeader(pending, config.header);
      if start < 0 {
        pending := TakeLast(pending, |config.header| - 1);
        return;
      }
      if start > 0 {
        pending := pending[start..];
      }
      if |pending| < config.lengthOffset + config.lengthSize {
        return;
      }
      var frameSize := FrameSize(config, pending);
      if frameSize < config.minimumFrameSize {
        go, pending := true, pending[|config.header|..];
      } else if frameSize > config.maximumFrameSize {
        go, event, pending := true, Fault(Oversized), pending[|config.header|..];
      } else if |pending| >= frameSize {
        var frame := pending[..frameSize];
        go, event, pending := true, Verdict(config, frame), pending[frameSize..];
      }
    }

    method OfferDetailed(bytes: seq<byte>) returns (frames: seq<seq<byte>>, errors: seq<FrameParseError>)
      requires config.Valid()
      modifies this
      ensures var parsed := Offer(config, old(pending), bytes);
              && frames == FramesOf(parsed.events)
              && lastErrors == errors == ErrorsOf(parsed.events) && pending == parsed.kept
    {
      pending := pending + bytes;
      if |pending| > config.maximumBufferSize {
        pending := pending[|pending| - config.maximumBufferSize..];
      }
      frames, errors := [], [];
      ghost var answer, reported := Drain(config, pending), [];
      assert pending == Clipped(config, old(pending), bytes);
      hide Drain, NextTurn, Clipped, FramesOf, ErrorsOf;
      FollowingNothing(answer);
      while true
        invariant answer == Following(reported, Drain(config, pending))
        invariant frames == FramesOf(reported) && errors == ErrorsOf(reported)
        decreases |pending|
      {
        DrainTurn(config, reported, pending);
        var go, event := TakeTurn();
        if !go {
          break;
        }
        if event.Frame? {
          frames := frames + [event.bytes];
        } else {
          errors := errors + [event.error];
        }
        FramesOfOneMore(reported, event);
        reported := reported + [event];
      }
      lastErrors := errors;
    }

    method Reset()
      modifies this
      ensures pending == [] && lastErrors == []
    {
      pending := [];
      lastErrors := [];
    }
  }
}
