/**
 * What the frame parser does over a whole stream: the answer does not depend on how the stream was cut,
 * the frames are disjoint slices of it, and well-formed frames come out intact whatever lies between them.
 */
module FrameStreams {
  import opened Bitwise
  import opened Frames

  // ---------- Finding the header in a longer stream ----------

  lemma FirstHeaderIs(s: seq<byte>, header: seq<byte>, start: nat)
    requires start < |s| && StartsAt(s, header, start)
    requires forall i :: 0 <= i < start ==> !StartsAt(s, header, i)
    ensures IndexOfHeader(s, header) == start
  {}

  lemma FirstHeaderExtends(s: seq<byte>, more: seq<byte>, header: seq<byte>)
    requires header != [] && IndexOfHeader(s, header) >= 0
    ensures IndexOfHeader(s + more, header) == IndexOfHeader(s, header)
  {
    var start := IndexOfHeader(s, header);
    assert (s + more)[start..start + |header|] == s[start..start + |header|];
    forall i | 0 <= i < start ensures !StartsAt(s + more, header, i) {
      assert (s + more)[i..i + |header|] == s[i..i + |header|];
      assert !StartsAt(s, header, i);
    }
    FirstHeaderIs(s + more, header, start);
  }

  lemma FirstHeaderSkips(s: seq<byte>, header: seq<byte>, k: nat)
    requires header != [] && k <= |s|
    requires forall i :: 0 <= i < k ==> !StartsAt(s, header, i)
    ensures var later := IndexOfHeader(s[k..], header);
            IndexOfHeader(s, header) == if later < 0 then -1 else k + later
  {
    forall i | k <= i <= |s| ensures StartsAt(s, header, i) == StartsAt(s[k..], header, i - k) {
      if i + |header| <= |s| {
        assert s[i..i + |header|] == s[k..][i - k..i - k + |header|];
      }
    }
    var later := IndexOfHeader(s[k..], header);
    if later >= 0 {
      forall i | 0 <= i < k + later ensures !StartsAt(s, header, i) {
        if i >= k {
          assert !StartsAt(s[k..], header, i - k);
        }
      }
      FirstHeaderIs(s, header, k + later);
    } else {
      forall i | 0 <= i <= |s| ensures !StartsAt(s, header, i) {
        if i >= k {
          assert !StartsAt(s[k..], header, i - k);
        }
      }
    }
  }

  // ---------- A turn sees only what it needs ----------

  lemma FrameSizeExtends(config: FrameConfig, s: seq<byte>, more: seq<byte>)
    requires config.Valid() && config.lengthOffset + config.lengthSize <= |s|
    ensures FrameSize(config, s + more) == FrameSize(config, s)
  {
    hide Unsigned, ToInt;
    var from, to := config.lengthOffset, config.lengthOffset + config.lengthSize;
    assert (s + more)[from..to] == s[from..to];
  }

  lemma AtHeaderExtends(config: FrameConfig, s: seq<byte>, more: seq<byte>)
    requires config.Valid() && StartsAt(s, config.header, 0)
    requires AtHeader(config, s).Report?
    ensures StartsAt(s + more, config.header, 0)
    ensures var turn := AtHeader(config, s); AtHeader(config, s + more) == Report(turn.event, turn.rest + more)
  {
    hide FrameSize, Verdict;
    assert (s + more)[0..|config.header|] == s[0..|config.header|];
    FrameSizeExtends(config, s, more);
    assert (s + more)[|config.header|..] == s[|config.header|..] + more;
    var size := FrameSize(config, s);
    if config.minimumFrameSize <= size <= config.maximumFrameSize {
      assert (s + more)[..size] == s[..size];
      assert (s + more)[size..] == s[size..] + more;
    }
  }

  lemma ReportExtends(config: FrameConfig, s: seq<byte>, more: seq<byte>)
    requires config.Valid() && NextTurn(config, s).Report?
    ensures var turn := NextTurn(config, s); NextTurn(config, s + more) == Report(turn.event, turn.rest + more)
  {
    hide AtHeader;
    var start := IndexOfHeader(s, config.header);
    FirstHeaderExtends(s, more, config.header);
    assert (s + more)[start..] == s[start..] + more;
    AtHeaderExtends(config, s[start..], more);
  }

  /** No header lies in what a stopped turn lets go, nor begins there. */
  ghost predicate Spent(s: seq<byte>, header: seq<byte>, dropped: nat) {
    && dropped <= |s| && (dropped == 0 || |s| - dropped >= |header| - 1)
    && forall i :: 0 <= i < dropped ==> !StartsAt(s, header, i)
  }

  lemma StopLetsGo(config: FrameConfig, s: seq<byte>)
    requires config.Valid() && NextTurn(config, s).Stop?
    ensures var kept := NextTurn(config, s).kept;
            |kept| <= |s| && kept == s[|s| - |kept|..] && Spent(s, config.header, |s| - |kept|)
  {
    hide FrameSize, Verdict;
  }

  lemma SpentStays(s: seq<byte>, header: seq<byte>, dropped: nat, more: seq<byte>)
    requires Spent(s, header, dropped)
    ensures Spent(s + more, header, dropped)
  {
    forall i | 0 <= i < dropped ensures !StartsAt(s + more, header, i) {
      assert !StartsAt(s, header, i);
      assert i + |header| <= |s| ==> (s + more)[i..i + |header|] == s[i..i + |header|];
    }
  }

  lemma SpentIsNotNeeded(config: FrameConfig, s: seq<byte>, dropped: nat)
    requires config.Valid() && Spent(s, config.header, dropped)
    ensures NextTurn(config, s) == NextTurn(config, s[dropped..])
  {
    hide AtHeader;
    FirstHeaderSkips(s, config.header, dropped);
    var start := IndexOfHeader(s, config.header);
    if start >= 0 {
      assert s[start..] == s[dropped..][start - dropped..];
    }
  }

  /** What a stopped turn kept is all the next one needs. */
  lemma StopForgetsNothing(config: FrameConfig, s: seq<byte>, more: seq<byte>)
    requires config.Valid() && NextTurn(config, s).Stop?
    ensures NextTurn(config, s + more) == NextTurn(config, NextTurn(config, s).kept + more)
  {
    hide NextTurn, Spent;
    StopLetsGo(config, s);
    var kept := NextTurn(config, s).kept;
    var dropped := |s| - |kept|;
    SpentStays(s, config.header, dropped, more);
    SpentIsNotNeeded(config, s + more, dropped);
    assert (s + more)[dropped..] == kept + more;
  }

  // ---------- Any cut gives the same answer ----------

  lemma {:induction false} DrainIsIncremental(config: FrameConfig, s: seq<byte>, more: seq<byte>)
    requires config.Valid()
    ensures Drain(config, s + more) == Following(Drain(config, s).events, Drain(config, Drain(config, s).kept + more))
    decreases |s|
  {
    hide NextTurn;
    match NextTurn(config, s)
    case Stop(kept) =>
      StopForgetsNothing(config, s, more);
      assert [] + Drain(config, kept + more).events == Drain(config, kept + more).events;
    case Report(event, rest) =>
      ReportExtends(config, s, more);
      DrainIsIncremental(config, rest, more);
      var later := Drain(config, rest);
      assert [event] + (later.events + Drain(config, later.kept + more).events)
          == ([event] + later.events) + Drain(config, later.kept + more).events;
  }

  lemma {:induction false} KeptIsShort(config: FrameConfig, s: seq<byte>)
    requires config.Valid() && config.lengthOffset + config.lengthSize <= config.maximumFrameSize
    ensures |Drain(config, s).kept| < config.maximumFrameSize
    decreases |s|
  {
    var turn := NextTurn(config, s);
    if turn.Report? {
      KeptIsShort(config, turn.rest);
    }
  }

  lemma {:induction false} KeptIsStable(config: FrameConfig, s: seq<byte>)
    requires config.Valid()
    ensures Drain(config, Drain(config, s).kept) == Parsed([], Drain(config, s).kept)
    decreases |s|
  {
    hide NextTurn;
    match NextTurn(config, s)
    case Stop(kept) =>
      StopForgetsNothing(config, s, []);
      assert s + [] == s && kept + [] == kept;
    case Report(event, rest) =>
      KeptIsStable(config, rest);
  }

  function Concat(chunks: seq<seq<byte>>): seq<byte> {
    if chunks == [] then [] else chunks[0] + Concat(chunks[1..])
  }

  /** Offering the chunks one after the other. */
  function Offers(config: FrameConfig, pending: seq<byte>, chunks: seq<seq<byte>>): Parsed
    requires config.Valid()
    decreases |chunks|
  {
    if chunks == [] then Parsed([], pending)
    else
      var first := Offer(config, pending, chunks[0]);
      Following(first.events, Offers(config, first.kept, chunks[1..]))
  }

  ghost predicate SmallChunks(config: FrameConfig, chunks: seq<seq<byte>>) {
    forall i :: 0 <= i < |chunks| ==> |chunks[i]| <= config.maximumBufferSize - config.maximumFrameSize + 1
  }

  lemma {:induction false} OffersFromPending(config: FrameConfig, pending: seq<byte>, chunks: seq<seq<byte>>)
    requires config.Valid() && config.lengthOffset + config.lengthSize <= config.maximumFrameSize
    requires SmallChunks(config, chunks)
    requires Drain(config, pending) == Parsed([], pending)
    ensures Offers(config, pending, chunks) == Drain(config, pending + Concat(chunks))
    decreases |chunks|
  {
    hide Drain;
    if chunks == [] {
      assert pending + [] == pending;
    } else {
      var offered := pending + chunks[0];
      KeptIsShort(config, pending);
      assert Clipped(config, pending, chunks[0]) == offered;
      var first := Drain(config, offered);
      KeptIsStable(config, offered);
      OffersFromPending(config, first.kept, chunks[1..]);
      DrainIsIncremental(config, offered, Concat(chunks[1..]));
      assert pending + Concat(chunks) == offered + Concat(chunks[1..]);
    }
  }

  lemma NothingPending(config: FrameConfig)
    requires config.Valid()
    ensures Drain(config, []) == Parsed([], [])
  {}

  /** However a stream is cut into small enough chunks, the parser answers as if it had come at once, unclipped. */
  lemma ChunkIndependence(config: FrameConfig, chunks: seq<seq<byte>>)
    requires config.Valid() && config.lengthOffset + config.lengthSize <= config.maximumFrameSize
    requires SmallChunks(config, chunks)
    ensures Offers(config, [], chunks) == Drain(config, Concat(chunks))
  {
    NothingPending(config);
    OffersFromPending(config, [], chunks);
    assert [] + Concat(chunks) == Concat(chunks);
  }

  // ---------- The frames are slices of the stream ----------

  /** A frame read off the front of `rest`: header, size within bounds and as declared, both tests passed. */
  ghost predicate Genuine(config: FrameConfig, rest: seq<byte>, frame: seq<byte>)
    requires config.Valid()
  {
    && frame <= rest
    && StartsAt(rest, config.header, 0)
    && config.minimumFrameSize <= |frame| <= config.maximumFrameSize
    && config.lengthOffset + config.lengthSize <= |rest|
    && FrameSize(config, rest) == |frame|
    && Verdict(config, frame) == Frame(frame)
  }

  /** The frames lie in the stream one after the other between `from` and `end`, frame i at place[i]. */
  ghost predicate Placed(config: FrameConfig, stream: seq<byte>, frames: seq<seq<byte>>, place: seq<nat>,
      from: nat, end: nat)
    requires config.Valid()
  {
    && |place| == |frames|
    && end <= |stream|
    && (forall i :: 0 <= i < |place| ==> from <= place[i] && place[i] + |frames[i]| <= end)
    && (forall i :: 0 <= i < |place| ==> Genuine(config, stream[place[i]..], frames[i]))
    && (forall i, j :: 0 <= i < j < |place| ==> place[i] + |frames[i]| <= place[j])
  }

  ghost predicate IsTail(s: seq<byte>, stream: seq<byte>) {
    |s| <= |stream| && s == stream[|stream| - |s|..]
  }

  lemma BothPlaced(config: FrameConfig, stream: seq<byte>, frames: seq<seq<byte>>, place: seq<nat>,
                   frames': seq<seq<byte>>, place': seq<nat>, from: nat, mid: nat, end: nat)
    requires config.Valid() && from <= mid <= end
    requires Placed(config, stream, frames, place, from, mid) && Placed(config, stream, frames', place', mid, end)
    ensures Placed(config, stream, frames + frames', place + place', from, end)
  {
    hide Genuine;
  }

  lemma GenuineExtends(config: FrameConfig, rest: seq<byte>, more: seq<byte>, frame: seq<byte>)
    requires config.Valid() && Genuine(config, rest, frame)
    ensures Genuine(config, rest + more, frame)
  {
    FrameSizeExtends(config, rest, more);
    assert (rest + more)[0..|config.header|] == rest[0..|config.header|];
  }

  lemma NonePlaced(config: FrameConfig, stream: seq<byte>, from: nat, end: nat)
    requires config.Valid() && end <= |stream|
    ensures Placed(config, stream, [], [], from, end)
  {}

  lemma OnePlaced(config: FrameConfig, stream: seq<byte>, frame: seq<byte>, at: nat, from: nat, end: nat)
    requires config.Valid() && from <= at && at + |frame| <= end <= |stream|
    requires Genuine(config, stream[at..], frame)
    ensures Placed(config, stream, [frame], [at], from, end)
  {
    hide Genuine;
  }

  lemma OneEvent(event: Event)
    ensures FramesOf([event]) == FrameIn(event)
  {
    assert [event][1..] == [];
  }

  lemma WithinStretch(before: seq<byte>, s: seq<byte>, after: seq<byte>, start: nat)
    requires start <= |s|
    ensures (before + s + after)[|before| + start..] == s[start..] + after
  {}

  lemma FramePlaced(config: FrameConfig, before: seq<byte>, s: seq<byte>, after: seq<byte>) returns (place: seq<nat>)
    requires config.Valid()
    requires var turn := NextTurn(config, s); turn.Report? && turn.event.Frame?
    ensures var turn := NextTurn(config, s);
            && IsTail(turn.rest, s)
            && Placed(config, before + s + after, [turn.event.bytes], place, |before|, |before| + |s| - |turn.rest|)
  {
    hide NextTurn, Genuine, IndexOfHeader, Placed;
    ReportedFrameIsGenuine(config, s);
    var start, turn := IndexOfHeader(s, config.header), NextTurn(config, s);
    GenuineExtends(config, s[start..], after, turn.event.bytes);
    WithinStretch(before, s, after, start);
    place := [|before| + start];
    OnePlaced(config, before + s + after, turn.event.bytes, |before| + start, |before|,
              |before| + |s| - |turn.rest|);
  }

  /** The frame one turn reports, if it reports one, lies in what the turn consumed. */
  lemma TurnPlacesFrame(config: FrameConfig, before: seq<byte>, s: seq<byte>,
      after: seq<byte>) returns (place: seq<nat>)
    requires config.Valid() && NextTurn(config, s).Report?
    ensures var turn := NextTurn(config, s);
            && IsTail(turn.rest, s)
            && Placed(config, before + s + after, FramesOf([turn.event]), place, |before|, |before| + |s| - |turn.rest|)
  {
    hide NextTurn, Genuine, IndexOfHeader, FramesOf, Placed;
    ReportLeavesTail(config, s);
    var turn := NextTurn(config, s);
    OneEvent(turn.event);
    if turn.event.Frame? {
      place := FramePlaced(config, before, s, after);
    } else {
      NonePlaced(config, before + s + after, |before|, |before| + |s| - |turn.rest|);
      place := [];
    }
  }

  /** Frames drained from a stretch of a stream lie in that stretch, ahead of what is kept. */
  lemma {:induction false} DrainPlacesFrames(config: FrameConfig, before: seq<byte>, s: seq<byte>, after: seq<byte>)
    returns (place: seq<nat>)
    requires config.Valid()
    ensures var parsed := Drain(config, s);
            && IsTail(parsed.kept, s)
            && Placed(config, before + s + after, FramesOf(parsed.events), place, |before|,
                |before| + |s| - |parsed.kept|)
    decreases |s|
  {
    hide NextTurn, Placed;
    var stream := before + s + after;
    match NextTurn(config, s)
    case Stop(kept) =>
      StopKeepsTail(config, s);
      NonePlaced(config, stream, |before|, |before| + |s| - |kept|);
      place := [];
    case Report(event, rest) =>
      var head := TurnPlacesFrame(config, before, s, after);
      var gone := s[..|s| - |rest|];
      assert stream == (before + gone) + rest + after;
      var later := Drain(config, rest);
      var tail := DrainPlacesFrames(config, before + gone, rest, after);
      FramesOfAppend([event], later.events);
      BothPlaced(config, stream, FramesOf([event]), head, FramesOf(later.events), tail, |before|, |before + gone|,
                 |before| + |s| - |later.kept|);
      place := head + tail;
  }

  lemma StopKeepsTail(config: FrameConfig, s: seq<byte>)
    requires config.Valid() && NextTurn(config, s).Stop?
    ensures IsTail(NextTurn(config, s).kept, s)
  {}

  lemma ReportLeavesTail(config: FrameConfig, s: seq<byte>)
    requires config.Valid() && NextTurn(config, s).Report?
    ensures IsTail(NextTurn(config, s).rest, s)
  {
    hide FrameSize, Verdict;
  }

  lemma ReportedFrameIsGenuine(config: FrameConfig, s: seq<byte>)
    requires config.Valid()
    requires var turn := NextTurn(config, s); turn.Report? && turn.event.Frame?
    ensures var start, turn := IndexOfHeader(s, config.header), NextTurn(config, s);
            && start >= 0 && Genuine(config, s[start..], turn.event.bytes)
            && IsTail(turn.rest, s) && start + |turn.event.bytes| == |s| - |turn.rest|
  {
    hide FrameSize, HasChecksumAt;
  }

  lemma LaterPlaced(config: FrameConfig, stream: seq<byte>, frames: seq<seq<byte>>, place: seq<nat>, from: nat,
      later: nat, end: nat)
    requires config.Valid() && from <= later && Placed(config, stream, frames, place, later, end)
    ensures Placed(config, stream, frames, place, from, end)
  {}

  /** The frames of one offer lie in what was pending or came with it, clipped or not. */
  lemma OfferPlacesFrames(config: FrameConfig, before: seq<byte>, pending: seq<byte>, bytes: seq<byte>,
      after: seq<byte>)
    returns (place: seq<nat>)
    requires config.Valid()
    ensures var parsed, s := Drain(config, Clipped(config, pending, bytes)), pending + bytes;
            && IsTail(parsed.kept, s)
            && Placed(config, before + s + after, FramesOf(parsed.events), place, |before|,
                |before| + |s| - |parsed.kept|)
  {
    hide Drain, Placed;
    var s, offered := pending + bytes, Clipped(config, pending, bytes);
    assert IsTail(offered, s);
    var lost := s[..|s| - |offered|];
    assert before + s + after == (before + lost) + offered + after;
    place := DrainPlacesFrames(config, before + lost, offered, after);
    var parsed := Drain(config, offered);
    LaterPlaced(config, before + s + after, FramesOf(parsed.events), place, |before|, |before + lost|,
                |before| + |s| - |parsed.kept|);
  }

  lemma ChunkSplits(before: seq<byte>, pending: seq<byte>, chunk: seq<byte>, later: seq<byte>, kept: seq<byte>)
    requires IsTail(kept, pending + chunk)
    ensures var done := (pending + chunk)[..|pending + chunk| - |kept|];
            && before + (pending + (chunk + later)) == before + (pending + chunk) + later
            && before + (pending + (chunk + later)) == before + done + (kept + later)
            && kept + later == (pending + (chunk + later))[|done|..]
  {}

  /** Whatever was offered, and however much of it was clipped, the frames are disjoint slices of it, in order. */
  lemma {:induction false} OffersPlaceFrames(config: FrameConfig, before: seq<byte>, pending: seq<byte>,
      chunks: seq<seq<byte>>)
    returns (place: seq<nat>)
    requires config.Valid()
    ensures var parsed, s := Offers(config, pending, chunks), pending + Concat(chunks);
            && IsTail(parsed.kept, s)
            && Placed(config, before + s, FramesOf(parsed.events), place, |before|, |before| + |s| - |parsed.kept|)
    decreases |chunks|
  {
    hide Drain, Clipped, Placed;
    var s := pending + Concat(chunks);
    if chunks == [] {
      NonePlaced(config, before + s, |before|, |before|);
      place := [];
    } else {
      var first := Drain(config, Clipped(config, pending, chunks[0]));
      var head := OfferPlacesFrames(config, before, pending, chunks[0], Concat(chunks[1..]));
      var done := (pending + chunks[0])[..|pending + chunks[0]| - |first.kept|];
      ChunkSplits(before, pending, chunks[0], Concat(chunks[1..]), first.kept);
      var tail := OffersPlaceFrames(config, before + done, first.kept, chunks[1..]);
      var rest := Offers(config, first.kept, chunks[1..]);
      FramesOfAppend(first.events, rest.events);
      BothPlaced(config, before + s, FramesOf(first.events), head, FramesOf(rest.events), tail, |before|,
                 |before + done|, |before| + |s| - |rest.kept|);
      place := head + tail;
    }
  }
}
