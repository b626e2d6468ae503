/**
 * Finding frames again: noise may hold whole headers whose length cannot be right, up to and across the beginning
 * of a true frame; each costs one error, and the frame is found all the same.
 */
module Resynchronisation {
  import opened Wrappers
  import opened Bitwise
  import opened Frames
  import opened FrameStreams
  import opened FrameRoundTrip

  /** The size declared at the front of s, as the Int the parser compares. */
  function IntSize(config: FrameConfig, s: seq<byte>): int
    requires config.Valid() && config.lengthOffset + config.lengthSize <= |s|
  {
    ToInt(DeclaredSize(config, s))
  }

  lemma WrappedTwice(u: int, extra: int)
    ensures ToInt(ToInt(u) + extra) == ToInt(u + extra)
  {
    var m := u % 0x1_0000_0000;
    assert (u + extra) % 0x1_0000_0000 == (m + extra) % 0x1_0000_0000 by {
      assert u == 0x1_0000_0000 * (u / 0x1_0000_0000) + m;
    }
    assert (m - 0x1_0000_0000 + extra) % 0x1_0000_0000 == (m + extra) % 0x1_0000_0000;
  }

  /** What a length field says, in either byte order. */
  lemma {:induction false} LittleEndianField(f: seq<byte>)
    requires 1 <= |f| <= 4
    ensures |f| == 1 ==> Unsigned(f, LittleEndian) == f[0] as nat
    ensures |f| == 2 ==> Unsigned(f, LittleEndian) == f[0] as nat + 256 * f[1] as nat
    ensures |f| == 3 ==> Unsigned(f, LittleEndian) == f[0] as nat + 256 * f[1] as nat + 65536 * f[2] as nat
    ensures |f| == 4 ==> Unsigned(f, LittleEndian)
                         == f[0] as nat + 256 * f[1] as nat + 65536 * f[2] as nat + 16777216 * f[3] as nat
    decreases |f|
  {
    if |f| > 1 {
      LittleEndianField(f[1..]);
    }
  }

  lemma {:induction false} BigEndianField(f: seq<byte>)
    requires 1 <= |f| <= 4
    ensures |f| == 1 ==> Unsigned(f, BigEndian) == f[0] as nat
    ensures |f| == 2 ==> Unsigned(f, BigEndian) == 256 * f[0] as nat + f[1] as nat
    ensures |f| == 3 ==> Unsigned(f, BigEndian) == 65536 * f[0] as nat + 256 * f[1] as nat + f[2] as nat
    ensures |f| == 4 ==> Unsigned(f, BigEndian)
                         == 16777216 * f[0] as nat + 65536 * f[1] as nat + 256 * f[2] as nat + f[3] as nat
    decreases |f|
  {
    if |f| > 1 {
      BigEndianField(f[..|f| - 1]);
    }
  }

  lemma SizeIsIntSize(config: FrameConfig, s: seq<byte>)
    requires config.Valid() && config.lengthOffset + config.lengthSize <= |s|
    ensures FrameSize(config, s) == IntSize(config, s)
  {
    var u := Unsigned(s[config.lengthOffset..config.lengthOffset + config.lengthSize], config.lengthByteOrder);
    WrappedTwice(u, |config.header| + config.lengthSize);
    hide Unsigned, ToInt;
  }

  // ---------- False headers ----------

  /** A header at i with its length field there, which declares a size out of bounds. */
  ghost predicate FalseHeader(config: FrameConfig, s: seq<byte>, i: nat)
    requires config.Valid()
  {
    && StartsAt(s, config.header, i) && i + config.lengthOffset + config.lengthSize <= |s|
    && var size := IntSize(config, s[i..]);
    size < config.minimumFrameSize || size > config.maximumFrameSize
  }

  ghost predicate NoneBegin(s: seq<byte>, header: seq<byte>, from: nat, to: nat) {
    forall k :: from <= k < to ==> !StartsAt(s, header, k)
  }

  /** The headers that begin from `from` on and before n: false ones at these places, and others only within them. */
  ghost predicate FalseHeaders(config: FrameConfig, s: seq<byte>, from: nat, at: seq<nat>, n: nat)
    requires config.Valid()
    decreases |at|
  {
    && from <= n <= |s|
    && (if at == [] then NoneBegin(s, config.header, from, n)
        else
          && from <= at[0] && at[0] + |config.header| <= n
          && NoneBegin(s, config.header, from, at[0]) && FalseHeader(config, s, at[0])
          && FalseHeaders(config, s, at[0] + |config.header|, at[1..], n))
  }

  /** What each of them is reported as. */
  ghost function Complaints(config: FrameConfig, s: seq<byte>, from: nat, at: seq<nat>, n: nat): (events: seq<Event>)
    requires config.Valid() && FalseHeaders(config, s, from, at, n)
    ensures |events| == |at|
    decreases |at|
  {
    if at == [] then []
    else
      var short := IntSize(config, s[at[0]..]) < config.minimumFrameSize;
      [Fault(if short then InvalidLength else Oversized)]
        + Complaints(config, s, at[0] + |config.header|, at[1..], n)
  }

  function EndOf(config: FrameConfig, from: nat, at: seq<nat>): nat {
    if at == [] then from else at[|at| - 1] + |config.header|
  }

  lemma Shifted(s: seq<byte>, header: seq<byte>, from: nat, k: int)
    requires from <= |s| && 0 <= k
    ensures StartsAt(s[from..], header, k) <==> StartsAt(s, header, from + k)
  {
    if from + k + |header| <= |s| {
      assert s[from..][k..k + |header|] == s[from + k..from + k + |header|];
    }
  }

  lemma FirstFalseHeader(config: FrameConfig, s: seq<byte>, from: nat, at: seq<nat>, n: nat)
    requires config.Valid() && FalseHeaders(config, s, from, at, n) && at != []
    ensures IndexOfHeader(s[from..], config.header) == at[0] - from
  {
    var header, first := config.header, at[0];
    hide FalseHeader, IndexOfHeader;
    FalseHeaderStarts(config, s, first);
    Shifted(s, header, from, first - from);
    forall k | 0 <= k < first - from ensures !StartsAt(s[from..], header, k) {
      Shifted(s, header, from, k);
      assert !StartsAt(s, header, from + k);
    }
    FirstHeaderIs(s[from..], header, first - from);
  }

  lemma FalseHeaderStarts(config: FrameConfig, s: seq<byte>, i: nat)
    requires config.Valid() && FalseHeader(config, s, i)
    ensures StartsAt(s, config.header, i)
  {
    hide IntSize;
  }

  lemma FalseHeaderIsReported(config: FrameConfig, s: seq<byte>, i: nat)
    requires config.Valid() && FalseHeader(config, s, i)
    ensures StartsAt(s[i..], config.header, 0)
    ensures var short := IntSize(config, s[i..]) < config.minimumFrameSize;
            AtHeader(config, s[i..])
            == Report(Fault(if short then InvalidLength else Oversized), s[i + |config.header|..])
  {
    hide IntSize, FrameSize, Verdict;
    Shifted(s, config.header, i, 0);
    SizeIsIntSize(config, s[i..]);
    assert s[i..][|config.header|..] == s[i + |config.header|..];
  }

  /** The first false header is reported, and a header's length dropped with it. */
  lemma OneFalseHeader(config: FrameConfig, s: seq<byte>, from: nat, at: seq<nat>, n: nat)
    requires config.Valid() && FalseHeaders(config, s, from, at, n) && at != []
    ensures var short := IntSize(config, s[at[0]..]) < config.minimumFrameSize;
            NextTurn(config, s[from..])
            == Report(Fault(if short then InvalidLength else Oversized), s[at[0] + |config.header|..])
  {
    FirstFalseHeader(config, s, from, at, n);
    FalseHeaderIsReported(config, s, at[0]);
    hide FalseHeader, StartsAt, AtHeader, IndexOfHeader;
    assert s[from..][at[0] - from..] == s[at[0]..];
  }

  lemma OneMoreTurn(config: FrameConfig, s: seq<byte>)
    requires config.Valid() && NextTurn(config, s).Report?
    ensures var turn := NextTurn(config, s);
            var later := Drain(config, turn.rest);
            Drain(config, s) == Parsed([turn.event] + later.events, later.kept)
  {
    hide NextTurn;
  }

  lemma FollowingOneMore(event: Event, events: seq<Event>, later: Parsed)
    ensures Parsed([event] + Following(events, later).events, later.kept) == Following([event] + events, later)
  {
    assert [event] + (events + later.events) == [event] + events + later.events;
  }

  /** All of them are reported, in order, and what follows the last is parsed as if it stood alone. */
  lemma {:induction false} FalseHeadersAreReported(config: FrameConfig, s: seq<byte>, from: nat, at: seq<nat>, n: nat)
    requires config.Valid() && FalseHeaders(config, s, from, at, n)
    ensures var end := EndOf(config, from, at);
            && end <= n <= |s| && NoneBegin(s, config.header, end, n)
            && Drain(config, s[from..]) == Following(Complaints(config, s, from, at, n), Drain(config, s[end..]))
    decreases |at|
  {
    hide NextTurn, IntSize, FalseHeader, NoneBegin;
    var rest := Drain(config, s[from..]);
    if at == [] {
      assert [] + rest.events == rest.events;
    } else {
      var next := at[0] + |config.header|;
      OneFalseHeader(config, s, from, at, n);
      FalseHeadersAreReported(config, s, next, at[1..], n);
      assert EndOf(config, next, at[1..]) == EndOf(config, from, at);
      OneMoreTurn(config, s[from..]);
      hide Drain;
      FollowingOneMore(NextTurn(config, s[from..]).event, Complaints(config, s, next, at[1..], n),
                       Drain(config, s[EndOf(config, from, at)..]));
    }
  }

  // ---------- True frames after them ----------

  /** Noise with false headers at these places, and a true frame. */
  datatype Stretch = Stretch(noise: seq<byte>, at: seq<nat>, frame: seq<byte>)

  function WireOfStretches(stretches: seq<Stretch>, tail: seq<byte>): seq<byte> {
    if stretches == [] then tail
    else stretches[0].noise + stretches[0].frame + WireOfStretches(stretches[1..], tail)
  }

  /** The false headers may reach across the true one, whose length field they may take for theirs. */
  ghost predicate Arranged(config: FrameConfig, stretches: seq<Stretch>, tail: seq<byte>)
    requires config.Valid()
  {
    if stretches == [] then IndexOfHeader(tail, config.header) < 0
    else
      && FalseHeaders(config, WireOfStretches(stretches, tail), 0, stretches[0].at, |stretches[0].noise|)
      && WellFramed(config, stretches[0].frame)
      && Arranged(config, stretches[1..], tail)
  }

  ghost function Reports(config: FrameConfig, stretches: seq<Stretch>, tail: seq<byte>): seq<Event>
    requires config.Valid() && Arranged(config, stretches, tail)
  {
    if stretches == [] then []
    else
      Complaints(config, WireOfStretches(stretches, tail), 0, stretches[0].at, |stretches[0].noise|)
        + [Verdict(config, stretches[0].frame)] + Reports(config, stretches[1..], tail)
  }

  lemma NoHeaderNoReport(config: FrameConfig, s: seq<byte>)
    requires config.Valid() && IndexOfHeader(s, config.header) < 0
    ensures Drain(config, s) == Parsed([], TakeLast(s, |config.header| - 1))
  {}

  lemma SliceOfSlice(s: seq<byte>, from: nat, to: nat, k: nat, m: nat)
    requires from <= to <= |s| && k <= m <= to - from
    ensures s[from..to][k..m] == s[from + k..from + m]
  {
    forall i | 0 <= i < m - k ensures s[from..to][k..m][i] == s[from + k..from + m][i] {
      assert s[from..to][k + i] == s[from + k + i];
    }
  }

  lemma NoHeaderLeft(header: seq<byte>, noise: seq<byte>, frame: seq<byte>, after: seq<byte>, end: nat)
    requires header != [] && end <= |noise| && StartsAt(frame, header, 0)
    requires NoneBegin(noise + frame + after, header, end, |noise|)
    ensures IndexOfHeader(noise[end..] + frame, header) == |noise| - end
  {
    var s, left := noise + frame + after, noise[end..];
    var short := left + frame;
    assert short == s[end..|noise| + |frame|];
    forall k | 0 <= k < |left| ensures !StartsAt(short, header, k) {
      assert !StartsAt(s, header, end + k);
      if k + |header| <= |short| {
        SliceOfSlice(s, end, |noise| + |frame|, k, k + |header|);
      }
    }
    assert short[|left|..|left| + |header|] == frame[0..|header|];
    FirstHeaderIs(short, header, |left|);
  }

  lemma FramesStart(config: FrameConfig, frame: seq<byte>)
    requires config.Valid() && WellFramed(config, frame)
    ensures StartsAt(frame, config.header, 0)
  {
    hide FrameSize;
  }

  lemma TrueFrameIsTaken(config: FrameConfig, stretch: Stretch, after: seq<byte>)
    requires config.Valid() && WellFramed(config, stretch.frame)
    requires FalseHeaders(config, stretch.noise + stretch.frame + after, 0, stretch.at, |stretch.noise|)
    ensures var s := stretch.noise + stretch.frame + after;
            var end := EndOf(config, 0, stretch.at);
            end <= |s| && NextTurn(config, s[end..]) == Report(Verdict(config, stretch.frame), after)
  {
    hide NextTurn, FrameSize, Verdict, FalseHeaders, Complaints, Drain, EndOf, NoneBegin, WellFramed, IndexOfHeader;
    var s, n := stretch.noise + stretch.frame + after, |stretch.noise|;
    var end := EndOf(config, 0, stretch.at);
    FramesStart(config, stretch.frame);
    FalseHeadersAreReported(config, s, 0, stretch.at, n);
    NoHeaderLeft(config.header, stretch.noise, stretch.frame, after, end);
    FrameIsTaken(config, Piece(stretch.noise[end..], stretch.frame), after);
    assert s[end..] == stretch.noise[end..] + stretch.frame + after;
  }

  lemma StretchIsReported(config: FrameConfig, stretch: Stretch, after: seq<byte>)
    requires config.Valid() && WellFramed(config, stretch.frame)
    requires FalseHeaders(config, stretch.noise + stretch.frame + after, 0, stretch.at, |stretch.noise|)
    ensures var s := stretch.noise + stretch.frame + after;
            var later := Drain(config, after);
            var complaints := Complaints(config, s, 0, stretch.at, |stretch.noise|);
            Drain(config, s) == Parsed(complaints + [Verdict(config, stretch.frame)] + later.events, later.kept)
  {
    hide NextTurn, WellFramed, Verdict, FalseHeaders, Drain, EndOf, Complaints, NoneBegin;
    var s := stretch.noise + stretch.frame + after;
    var end, later := EndOf(config, 0, stretch.at), Drain(config, after);
    var complaints := Complaints(config, s, 0, stretch.at, |stretch.noise|);
    FalseHeadersAreReported(config, s, 0, stretch.at, |stretch.noise|);
    TrueFrameIsTaken(config, stretch, after);
    OneMoreTurn(config, s[end..]);
    assert s[0..] == s;
    assert complaints + ([Verdict(config, stretch.frame)] + later.events)
        == complaints + [Verdict(config, stretch.frame)] + later.events;
  }

  /**
   * Through noise with any number of false headers: each is one error, InvalidLength exactly when its declared size
   * is too small and Oversized when it is too great, and every true frame is judged once, on its own bytes.
   */
  lemma {:induction false} EveryFrameIsFoundAgain(config: FrameConfig, stretches: seq<Stretch>, tail: seq<byte>)
    requires config.Valid() && Arranged(config, stretches, tail)
    ensures Drain(config, WireOfStretches(stretches, tail))
         == Parsed(Reports(config, stretches, tail), TakeLast(tail, |config.header| - 1))
    decreases |stretches|
  {
    hide FalseHeaders, WellFramed, Verdict, Drain, IndexOfHeader, Complaints;
    if stretches == [] {
      NoHeaderNoReport(config, tail);
    } else {
      EveryFrameIsFoundAgain(config, stretches[1..], tail);
      StretchIsReported(config, stretches[0], WireOfStretches(stretches[1..], tail));
    }
  }

  /** And so however the stream is cut into small enough chunks. */
  lemma FramesAreFoundInChunks(config: FrameConfig, stretches: seq<Stretch>, tail: seq<byte>, chunks: seq<seq<byte>>)
    requires config.Valid() && config.lengthOffset + config.lengthSize <= config.maximumFrameSize
    requires Arranged(config, stretches, tail)
    requires SmallChunks(config, chunks) && Concat(chunks) == WireOfStretches(stretches, tail)
    ensures var parsed := Offers(config, [], chunks); parsed.events == Reports(config, stretches, tail)
  {
    ChunkIndependence(config, chunks);
    EveryFrameIsFoundAgain(config, stretches, tail);
  }

  lemma OneByteLength(s: seq<byte>, i: nat)
    requires i < |s|
    ensures Unsigned(s[i..i + 1], BigEndian) == s[i] as nat
  {
    var field := s[i..i + 1];
    assert field == [s[i]] && field[..0] == [];
  }

  /** Frames of at most eight bytes, with a header of one. */
  const TIGHT := FrameConfig([0x55], 1, 1, BigEndian, false, [], None, 0, None, 1, 8, 16)

  lemma TightFalseHeader(s: seq<byte>)
    requires |s| >= 2 && s[0] == 0x55 && 6 < s[1]
    ensures TIGHT.Valid() && FalseHeader(TIGHT, s, 0) && IntSize(TIGHT, s[0..]) > 8
  {
    OneByteHeader(s, 0x55, 0);
    OneByteLength(s, 1);
    assert s[0..] == s;
    hide Unsigned, StartsAt;
  }

  lemma TightFrame(frame: seq<byte>)
    requires 2 <= |frame| <= 8 && frame[0] == 0x55 && frame[1] as nat == |frame| - 2
    ensures TIGHT.Valid() && WellFramed(TIGHT, frame) && Verdict(TIGHT, frame) == Frame(frame)
  {
    OneByteHeader(frame, 0x55, 0);
    OneByteLength(frame, 1);
  }

  /** The first byte of a true header is taken for a whole frame's header; the frame arrives nevertheless. */
  lemma FrameBehindFalseHeaderArrives()
    ensures TIGHT.Valid()
            && Drain(TIGHT, [0x55, 0x55, 2, 7, 8]) == Parsed([Fault(Oversized), Frame([0x55, 2, 7, 8])], [])
  {
    var frame: seq<byte> := [0x55, 2, 7, 8];
    var stretch := Stretch([0x55], [0], frame);
    var s := stretch.noise + frame + [];
    assert s == [0x55, 0x55, 2, 7, 8];
    TightFalseHeader(s);
    TightFrame(frame);
    OneByteHeader(s, 0x55, 0);
    hide FalseHeader, WellFramed, Unsigned, Drain, Verdict, StartsAt;
    assert [0 as nat][1..] == [];
    assert FalseHeaders(TIGHT, s, 1, [], 1);
    assert FalseHeaders(TIGHT, s, 0, [0], 1);
    assert Complaints(TIGHT, s, 0, [0], 1) == [Fault(Oversized)];
    NoHeaderNoReport(TIGHT, []);
    StretchIsReported(TIGHT, stretch, []);
  }
}
