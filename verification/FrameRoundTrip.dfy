/**
 * Sending frames through noise: what is well formed arrives, exactly once and in order, and damage to one
 * frame's checked part costs that frame alone.
 */
module FrameRoundTrip {
  import opened Wrappers
  import opened Bitwise
  import opened Checksums
  import opened CrcDetection
  import opened Frames
  import opened FrameStreams

  // ---------- The size of a frame and its length field ----------

  /** The size the length field asks for, read as the unsigned number it is. */
  function DeclaredSize(config: FrameConfig, s: seq<byte>): int
    requires config.Valid() && config.lengthOffset + config.lengthSize <= |s|
  {
    Unsigned(s[config.lengthOffset..config.lengthOffset + config.lengthSize], config.lengthByteOrder)
      + if config.lengthIncludesHeader then 0 else |config.header| + config.lengthSize
  }

  function Span(bytes: nat): nat { if bytes == 0 then 1 else 256 * Span(bytes - 1) }

  lemma {:induction false} UnsignedFits(field: seq<byte>, order: ByteOrder)
    ensures Unsigned(field, order) < Span(|field|)
  {
    if field != [] {
      if order.BigEndian? {
        UnsignedFits(field[..|field| - 1], order);
      } else {
        UnsignedFits(field[1..], order);
      }
    }
  }

  lemma LengthFits(field: seq<byte>, order: ByteOrder)
    requires |field| <= 4
    ensures Unsigned(field, order) < 0x1_0000_0000
    ensures |field| <= 3 ==> Unsigned(field, order) < 0x100_0000
  {
    UnsignedFits(field, order);
    assert Span(0) == 1 && Span(1) == 0x100;
    assert Span(2) == 0x1_0000 && Span(3) == 0x100_0000;
    assert Span(4) == 0x1_0000_0000;
  }

  lemma WrappedSize(u: nat, extra: nat)
    requires u < 0x1_0000_0000 && extra < 0x8000_0004
    ensures ToInt(u) == u <==> u < 0x8000_0000
    ensures var size := ToInt(ToInt(u) + extra);
            size > 0 && size >= extra - 4 ==> (size == u + extra <==> u < 0x8000_0000)
  {}

  /**
   * An accepted frame has the size its length field declares exactly when that field, read as unsigned, fits
   * an Int: always for one to three bytes, and for four bytes exactly when the top bit is clear.
   */
  lemma AcceptedSizeIsDeclaredSize(config: FrameConfig, rest: seq<byte>, frame: seq<byte>)
    requires config.Valid() && Genuine(config, rest, frame)
    ensures var field := rest[config.lengthOffset..config.lengthOffset + config.lengthSize];
            |frame| == DeclaredSize(config, rest) <==> Unsigned(field, config.lengthByteOrder) < 0x8000_0000
    ensures config.lengthSize <= 3 ==> |frame| == DeclaredSize(config, rest)
  {
    var field := rest[config.lengthOffset..config.lengthOffset + config.lengthSize];
    LengthFits(field, config.lengthByteOrder);
    hide Unsigned, Verdict, StartsAt, ToInt;
    WrappedSize(Unsigned(field, config.lengthByteOrder), |config.header| + config.lengthSize);
  }

  lemma OneByteHeader(s: seq<byte>, b: byte, i: int)
    ensures StartsAt(s, [b], i) <==> 0 <= i < |s| && s[i] == b
  {
    if 0 <= i < |s| {
      assert s[i..i + 1] == [s[i]];
    }
  }

  /** A four-byte length of 0xFFFFFFFF is accepted, as a frame ending one byte short of its own length field. */
  lemma WrappedLengthIsAccepted()
    ensures var config := FrameConfig([0x55], 1, 4, BigEndian, false, [], None, 0, None, 1, 4096, 8192);
            && config.Valid()
            && NextTurn(config, [0x55, 255, 255, 255, 255]) == Report(Frame([0x55, 255, 255, 255]), [255])
  {
    var config := FrameConfig([0x55], 1, 4, BigEndian, false, [], None, 0, None, 1, 4096, 8192);
    var s: seq<byte> := [0x55, 255, 255, 255, 255];
    OneByteHeader(s, 0x55, 0);
    assert Unsigned([255], BigEndian) == 255 by { assert [255 as byte][..0] == []; }
    assert Unsigned([255, 255], BigEndian) == 0xFFFF by { assert [255 as byte, 255][..1] == [255]; }
    assert Unsigned([255, 255, 255], BigEndian) == 0xFF_FFFF by { assert [255 as byte, 255, 255][..2] == [255, 255]; }
    assert Unsigned([255, 255, 255, 255], BigEndian) == 0xFFFF_FFFF by { assert [255 as byte, 255, 255,
        255][..3] == [255, 255, 255]; }
    assert s[1..5] == [255, 255, 255, 255];
    assert FrameSize(config, s) == 4;
    hide FrameSize, Unsigned;
    assert s[0..] == s && s[..4] == [0x55, 255, 255, 255] && s[4..] == [255];
  }

  // ---------- Well-formed frames between noise ----------

  /** Header in place, length field within the frame and saying its size, size within bounds. */
  ghost predicate WellFramed(config: FrameConfig, frame: seq<byte>)
    requires config.Valid()
  {
    && StartsAt(frame, config.header, 0)
    && config.lengthOffset + config.lengthSize <= |frame|
    && config.minimumFrameSize <= |frame| <= config.maximumFrameSize
    && FrameSize(config, frame) == |frame|
  }

  datatype Piece = Piece(noise: seq<byte>, frame: seq<byte>)

  ghost predicate Sendable(config: FrameConfig, piece: Piece)
    requires config.Valid()
  {
    WellFramed(config, piece.frame) && IndexOfHeader(piece.noise + piece.frame, config.header) == |piece.noise|
  }

  function Wire(pieces: seq<Piece>, tail: seq<byte>): seq<byte> {
    if pieces == [] then tail else pieces[0].noise + pieces[0].frame + Wire(pieces[1..], tail)
  }

  function Verdicts(config: FrameConfig, pieces: seq<Piece>): seq<Event> {
    if pieces == [] then [] else [Verdict(config, pieces[0].frame)] + Verdicts(config, pieces[1..])
  }

  lemma FrameIsTaken(config: FrameConfig, piece: Piece, after: seq<byte>)
    requires config.Valid() && Sendable(config, piece)
    ensures NextTurn(config, piece.noise + piece.frame + after) == Report(Verdict(config, piece.frame), after)
  {
    hide FrameSize, Verdict;
    var s := piece.noise + piece.frame;
    FirstHeaderExtends(s, after, config.header);
    assert (s + after)[|piece.noise|..] == piece.frame + after;
    FrameSizeExtends(config, piece.frame, after);
    assert (piece.frame + after)[..|piece.frame|] == piece.frame;
    assert (piece.frame + after)[|piece.frame|..] == after;
  }

  /** Each frame is judged on its own bytes, once and in order; noise reports nothing. */
  lemma {:induction false} EveryFrameIsJudgedOnce(config: FrameConfig, pieces: seq<Piece>, tail: seq<byte>)
    requires config.Valid()
    requires forall i :: 0 <= i < |pieces| ==> Sendable(config, pieces[i])
    requires IndexOfHeader(tail, config.header) < 0
    ensures Drain(config, Wire(pieces, tail)) == Parsed(Verdicts(config, pieces), TakeLast(tail, |config.header| - 1))
    decreases |pieces|
  {
    hide Sendable, Verdict, IndexOfHeader, AtHeader;
    if pieces != [] {
      FrameIsTaken(config, pieces[0], Wire(pieces[1..], tail));
      EveryFrameIsJudgedOnce(config, pieces[1..], tail);
    }
  }

  predicate Intact(config: FrameConfig, frame: seq<byte>) { Verdict(config, frame) == Frame(frame) }

  function IntactFrames(config: FrameConfig, pieces: seq<Piece>): seq<seq<byte>> {
    if pieces == [] then []
    else (if Intact(config, pieces[0].frame) then [pieces[0].frame] else []) + IntactFrames(config, pieces[1..])
  }

  function DamageReports(config: FrameConfig, pieces: seq<Piece>): seq<FrameParseError> {
    if pieces == [] then []
    else (if Intact(config, pieces[0].frame) then [] else [Verdict(config,
        pieces[0].frame).error]) + DamageReports(config, pieces[1..])
  }

  lemma {:induction false} VerdictsSplit(config: FrameConfig, pieces: seq<Piece>)
    ensures FramesOf(Verdicts(config, pieces)) == IntactFrames(config, pieces)
    ensures ErrorsOf(Verdicts(config, pieces)) == DamageReports(config, pieces)
  {
    if pieces != [] {
      VerdictsSplit(config, pieces[1..]);
      assert Verdicts(config, pieces)[1..] == Verdicts(config, pieces[1..]);
    }
  }

  /** The round trip: through noise, damage and any small-chunk delivery, the intact frames arrive and only they do. */
  lemma FramesArriveThroughNoise(config: FrameConfig, pieces: seq<Piece>, tail: seq<byte>, chunks: seq<seq<byte>>)
    requires config.Valid() && config.lengthOffset + config.lengthSize <= config.maximumFrameSize
    requires forall i :: 0 <= i < |pieces| ==> Sendable(config, pieces[i])
    requires IndexOfHeader(tail, config.header) < 0
    requires SmallChunks(config, chunks) && Concat(chunks) == Wire(pieces, tail)
    ensures var parsed := Offers(config, [], chunks);
            && FramesOf(parsed.events) == IntactFrames(config, pieces)
            && ErrorsOf(parsed.events) == DamageReports(config, pieces)
  {
    ChunkIndependence(config, chunks);
    EveryFrameIsJudgedOnce(config, pieces, tail);
    VerdictsSplit(config, pieces);
  }

  // ---------- What makes a frame intact ----------

  /** With a trailing checksum and no footer, intact means the checksum of the rest; otherwise one mismatch. */
  lemma TrailingChecksumDecides(config: FrameConfig, frame: seq<byte>)
    requires config.footer == [] && config.checksum.Some? && config.checksumOffset.None?
    requires 1 <= config.checksumSize <= |frame|
    ensures var body := |frame| - config.checksumSize;
            Verdict(config, frame) == if config.checksum.value(frame[..body]) == frame[body..] then Frame(frame)
                                      else Fault(ChecksumMismatch)
  {
    var body := |frame| - config.checksumSize;
    assert frame[body..body + config.checksumSize] == frame[body..];
    assert frame[..body] + frame[body + config.checksumSize..] == frame[..body];
  }

  lemma FooterDecides(config: FrameConfig, frame: seq<byte>)
    requires config.footer != [] && config.checksum.None?
    ensures Verdict(config, frame)
         == if |frame| >= |config.footer| && frame[|frame| - |config.footer|..] == config.footer
            then Frame(frame) else Fault(FooterMismatch)
  {}

  lemma BothDecide(config: FrameConfig, frame: seq<byte>)
    requires config.footer != [] && config.checksum.Some? && config.checksumOffset.None?
    requires 0 <= config.checksumSize
    ensures var body, end := |frame| - config.checksumSize, |frame| - |config.footer|;
            Intact(config, frame) <==>
              && config.checksumSize > 0 && body >= 0 && end >= 0
              && frame[end..] == config.footer && config.checksum.value(frame[..body]) == frame[body..]
  {
    var body := |frame| - config.checksumSize;
    if body >= 0 {
      assert frame[body..body + config.checksumSize] == frame[body..];
      assert frame[..body] + frame[body + config.checksumSize..] == frame[..body];
    }
  }

  /** Of two ends of the same bytes the shorter is the end of the longer. */
  lemma EndsOverlap(frame: seq<byte>, a: nat, b: nat)
    requires a <= b <= |frame|
    ensures frame[b..] == TakeLast(frame[a..], |frame| - b)
  {
    assert frame[b..] == frame[a..][b - a..];
  }

  /**
   * Footer and trailing checksum claim the same bytes: a frame passes exactly when it ends in both, so the shorter
   * of them must be the end of the longer; if they are as long, the checksum must BE the footer.
   */
  lemma FooterAndTrailingChecksumCollide(config: FrameConfig, frame: seq<byte>)
    requires config.footer != [] && config.checksum.Some? && config.checksumOffset.None?
    requires 0 <= config.checksumSize
    ensures var body, end := |frame| - config.checksumSize, |frame| - |config.footer|;
            && (Intact(config, frame) <==>
                  && config.checksumSize > 0 && body >= 0 && end >= 0
                  && frame[end..] == config.footer && config.checksum.value(frame[..body]) == frame[body..])
            && (Intact(config, frame) ==>
                  var sum := config.checksum.value(frame[..body]);
                  && (|sum| <= |config.footer| ==> sum == TakeLast(config.footer, |sum|))
                  && (|config.footer| <= |sum| ==> config.footer == TakeLast(sum, |config.footer|)))
  {
    var body, end := |frame| - config.checksumSize, |frame| - |config.footer|;
    BothDecide(config, frame);
    hide Intact, TakeLast;
    if body >= end >= 0 {
      EndsOverlap(frame, end, body);
    }
    if end >= body >= 0 {
      EndsOverlap(frame, body, end);
    }
  }

  /** With a checksum at a fixed place: it passes exactly if it lies there and is that of all the other bytes. */
  lemma PlacedChecksumDecides(config: FrameConfig, head: seq<byte>, sum: seq<byte>, tail: seq<byte>)
    requires config.footer == [] && config.checksum.Some? && config.checksumOffset == Some(|head|)
    requires config.checksumSize == |sum| > 0
    ensures Verdict(config, head + sum + tail)
         == if sum == config.checksum.value(head + tail) then Frame(head + sum + tail) else Fault(ChecksumMismatch)
  {
    var frame := head + sum + tail;
    assert frame[..|head|] == head && frame[|head|..|head| + |sum|] == sum && frame[|head| + |sum|..] == tail;
  }

  /** If it does not lie within the frame, no frame passes. */
  lemma MisplacedChecksumRejects(config: FrameConfig, frame: seq<byte>)
    requires config.checksum.Some? && config.checksumOffset.Some?
    requires config.checksumOffset.value < 0 || config.checksumOffset.value + config.checksumSize > |frame|
    ensures !Intact(config, frame)
  {}

  /** A checksum of no bytes accepts nothing. */
  lemma EmptyChecksumRejectsEverything(config: FrameConfig, frame: seq<byte>)
    requires config.checksum.Some? && config.checksumSize == 0
    ensures !Intact(config, frame)
  {}

  // ---------- Building frames ----------

  /** A number as a length field of this size. */
  function Digits(n: nat, size: nat, order: ByteOrder): (field: seq<byte>)
    ensures |field| == size
    decreases size
  {
    if size == 0 then []
    else if order.BigEndian? then Digits(n / 256, size - 1, order) + [(n % 256) as byte]
    else [(n % 256) as byte] + Digits(n / 256, size - 1, order)
  }

  lemma {:induction false} DigitsReadBack(n: nat, size: nat, order: ByteOrder)
    requires n < Span(size)
    ensures Unsigned(Digits(n, size, order), order) == n
    decreases size
  {
    if size > 0 {
      DigitsReadBack(n / 256, size - 1, order);
      var field, rest := Digits(n, size, order), Digits(n / 256, size - 1, order);
      if order.BigEndian? {
        assert field[..|field| - 1] == rest;
      } else {
        assert field[1..] == rest;
      }
    }
  }

  /** Where the length field directly follows the header, and footer or trailing checksum ends the frame, not both. */
  ghost predicate Buildable(config: FrameConfig) {
    && config.Valid() && config.lengthOffset == |config.header| && config.lengthSize <= 3
    && (config.footer == [] || config.checksum.None?)
    && (config.checksum.Some? ==>
          && config.checksumOffset.None? && config.checksumSize >= 1
          && forall data :: |config.checksum.value(data)| == config.checksumSize)
  }

  function TrailerSize(config: FrameConfig): int {
    if config.footer != [] then |config.footer| else if config.checksum.Some? then config.checksumSize else 0
  }

  function TotalSize(config: FrameConfig, payload: seq<byte>): int {
    |config.header| + config.lengthSize + |payload| + TrailerSize(config)
  }

  /** What the length field must say about a frame with this payload. */
  function SizeToDeclare(config: FrameConfig, payload: seq<byte>): int {
    if config.lengthIncludesHeader then TotalSize(config, payload) else |payload| + TrailerSize(config)
  }

  /** The payload fits the length field and makes a frame within bounds. */
  ghost predicate Fits(config: FrameConfig, payload: seq<byte>) {
    Buildable(config) && SizeToDeclare(config, payload) < Span(config.lengthSize)
    && config.minimumFrameSize <= TotalSize(config, payload) <= config.maximumFrameSize
  }

  ghost function Built(config: FrameConfig, payload: seq<byte>): (frame: seq<byte>)
    requires Fits(config, payload)
    ensures |frame| == TotalSize(config, payload)
  {
    var body := config.header + Digits(SizeToDeclare(config, payload), config.lengthSize,
        config.lengthByteOrder) + payload;
    if config.footer != [] then body + config.footer
    else if config.checksum.Some? then WithChecksum(config.checksum.value, body)
    else body
  }

  lemma BuiltLayout(config: FrameConfig, payload: seq<byte>)
    requires Fits(config, payload)
    ensures var frame, from := Built(config, payload), |config.header|;
            var to := from + config.lengthSize;
            && frame[0..from] == config.header
            && frame[from..to] == Digits(SizeToDeclare(config, payload), config.lengthSize, config.lengthByteOrder)
            && frame[to..][..|payload|] == payload
  {
    var field := Digits(SizeToDeclare(config, payload), config.lengthSize, config.lengthByteOrder);
    var frame := Built(config, payload);
    assert frame == config.header + field + payload + frame[|config.header| + |field| + |payload|..];
    hide Digits, Built, Span, TotalSize, SizeToDeclare;
    Layered(config.header, field, payload, frame[|config.header| + |field| + |payload|..]);
  }

  lemma Layered(header: seq<byte>, field: seq<byte>, payload: seq<byte>, trailer: seq<byte>)
    ensures var frame, from, to := header + field + payload + trailer, |header|, |header| + |field|;
            frame[0..from] == header && frame[from..to] == field && frame[to..][..|payload|] == payload
  {}

  lemma DeclaredIsUnwrapped(field: seq<byte>, order: ByteOrder, declared: nat, extra: nat)
    requires |field| <= 3 && Unsigned(field, order) == declared && declared + extra < 0x8000_0000
    ensures ToInt(declared) == declared && ToInt(ToInt(declared) + extra) == declared + extra
  {
    LengthFits(field, order);
  }

  lemma SizesFit(config: FrameConfig, payload: seq<byte>)
    requires Fits(config, payload)
    ensures var declared := SizeToDeclare(config, payload);
            && 0 <= declared < Span(config.lengthSize) && config.lengthSize <= 3
            && declared + (if config.lengthIncludesHeader then 0 else |config.header| + config.lengthSize)
               == TotalSize(config, payload)
            && |config.header| + config.lengthSize + |payload| <= TotalSize(config, payload) < 0x8000_0000
  {
    hide Span;
  }

  /** A built frame is well formed and holds its payload. */
  lemma BuiltIsWellFramed(config: FrameConfig, payload: seq<byte>)
    requires Fits(config, payload)
    ensures var frame := Built(config, payload);
            WellFramed(config, frame) && frame[|config.header| + config.lengthSize..][..|payload|] == payload
  {
    hide Unsigned, Digits, Built, Span, ToInt, TotalSize, SizeToDeclare;
    SizesFit(config, payload);
    var declared := SizeToDeclare(config, payload);
    var field := Digits(declared, config.lengthSize, config.lengthByteOrder);
    BuiltLayout(config, payload);
    DigitsReadBack(declared, config.lengthSize, config.lengthByteOrder);
    DeclaredIsUnwrapped(field, config.lengthByteOrder, declared,
                        if config.lengthIncludesHeader then 0 else |config.header| + config.lengthSize);
  }

  lemma BuiltIsIntact(config: FrameConfig, payload: seq<byte>)
    requires Fits(config, payload)
    ensures Intact(config, Built(config, payload))
  {
    var frame := Built(config, payload);
    if config.footer != [] {
      FooterDecides(config, frame);
    } else if config.checksum.Some? {
      TrailingChecksumDecides(config, frame);
      var body := config.header + Digits(SizeToDeclare(config, payload), config.lengthSize,
          config.lengthByteOrder) + payload;
      assert frame[..|frame| - config.checksumSize] == body;
    }
    hide Digits, Unsigned, HasChecksumAt;
  }

  /** Building any payloads, sending them through noise and parsing gives back exactly the frames built. */
  lemma BuiltFramesArrive(config: FrameConfig, payloads: seq<seq<byte>>, pieces: seq<Piece>, tail: seq<byte>,
                          chunks: seq<seq<byte>>)
    requires Buildable(config) && config.lengthOffset + config.lengthSize <= config.maximumFrameSize
    requires |pieces| == |payloads|
    requires forall i :: 0 <= i < |pieces| ==>
               Fits(config, payloads[i]) && pieces[i].frame == Built(config, payloads[i])
               && IndexOfHeader(pieces[i].noise + pieces[i].frame, config.header) == |pieces[i].noise|
    requires IndexOfHeader(tail, config.header) < 0
    requires SmallChunks(config, chunks) && Concat(chunks) == Wire(pieces, tail)
    ensures var parsed := Offers(config, [], chunks);
            && FramesOf(parsed.events) == seq(|payloads|, i requires 0 <= i < |payloads| => Built(config, payloads[i]))
            && ErrorsOf(parsed.events) == []
  {
    hide WellFramed, Intact, IndexOfHeader, Built, Wire;
    forall i | 0 <= i < |pieces| ensures Sendable(config, pieces[i]) && Intact(config, pieces[i].frame) {
      BuiltIsWellFramed(config, payloads[i]);
      BuiltIsIntact(config, payloads[i]);
    }
    FramesArriveThroughNoise(config, pieces, tail, chunks);
    AllIntact(config, pieces);
    var frames := seq(|payloads|, i requires 0 <= i < |payloads| => Built(config, payloads[i]));
    assert frames == seq(|pieces|, i requires 0 <= i < |pieces| => pieces[i].frame);
  }

  lemma {:induction false} AllIntact(config: FrameConfig, pieces: seq<Piece>)
    requires forall i :: 0 <= i < |pieces| ==> Intact(config, pieces[i].frame)
    ensures IntactFrames(config, pieces) == seq(|pieces|, i requires 0 <= i < |pieces| => pieces[i].frame)
    ensures DamageReports(config, pieces) == []
  {
    hide Intact;
    if pieces != [] {
      AllIntact(config, pieces[1..]);
    }
  }

  ghost predicate UsesCrc(config: FrameConfig) {
    && config.Valid() && config.footer == []
    && config.checksum == Some(Crc16) && config.checksumSize == 2 && config.checksumOffset.None?
  }

  lemma FrameSizeDependsOnField(config: FrameConfig, s: seq<byte>, t: seq<byte>)
    requires config.Valid() && config.lengthOffset + config.lengthSize <= |s| == |t|
    requires var from, to := config.lengthOffset, config.lengthOffset + config.lengthSize; s[from..to] == t[from..to]
    ensures FrameSize(config, s) == FrameSize(config, t)
  {}

  /** A burst of up to 16 bits that spares header and length field turns a frame into exactly one mismatch. */
  lemma BurstCostsOneFrame(config: FrameConfig, frame: seq<byte>, damaged: seq<byte>, from: nat)
    requires UsesCrc(config) && WellFramed(config, frame) && Intact(config, frame)
    requires |frame| >= 2 && damaged != frame && DifferInBurst(frame, damaged, from)
    requires damaged[..|config.header|] == frame[..|config.header|]
    requires var from, to := config.lengthOffset, config.lengthOffset + config.lengthSize;
             damaged[from..to] == frame[from..to]
    ensures WellFramed(config, damaged) && Verdict(config, damaged) == Fault(ChecksumMismatch)
  {
    assert |damaged| == |frame|;
    hide Crc16, DifferInBurst, FrameSize, HasChecksumAt;
    assert StartsAt(damaged, config.header, 0);
    FrameSizeDependsOnField(config, frame, damaged);
    TrailingChecksumDecides(config, frame);
    TrailingChecksumDecides(config, damaged);
    CrcIsTwoBytes([]);
    var body := |frame| - 2;
    assert frame == frame[..body] + frame[body..] && damaged == damaged[..body] + damaged[body..];
    BurstIsDetected(frame, damaged, from);
  }

  // ---------- The chunk bound is needed ----------

  const TIGHT := FrameConfig([0x55], 1, 1, BigEndian, false, [], None, 0, None, 1, 4, 4)

  lemma TightFrameSize(s: seq<byte>)
    requires |s| >= 2 && s[1] == 2
    ensures FrameSize(TIGHT, s) == 4
  {
    assert s[1..2] == [2] && [2 as byte][..0] == [];
    assert Unsigned([2], BigEndian) == 2;
  }

  /** One byte more than the bound allows, and the buffer limit can cost a frame that fits it. */
  lemma LargerChunkCanLoseFrame()
    ensures TIGHT.Valid() && TIGHT.lengthOffset + TIGHT.lengthSize <= TIGHT.maximumFrameSize
    ensures NextTurn(TIGHT, [0x55, 2, 7, 8, 9]) == Report(Frame([0x55, 2, 7, 8]), [9])
    ensures Drain(TIGHT, [0x55, 2, 7]) == Parsed([], [0x55, 2, 7])
    ensures |[8, 9]| == TIGHT.maximumBufferSize - TIGHT.maximumFrameSize + 2
    ensures Drain(TIGHT, Clipped(TIGHT, [0x55, 2, 7], [8, 9])).events == []
  {
    var whole: seq<byte> := [0x55, 2, 7, 8, 9];
    var part: seq<byte> := [0x55, 2, 7];
    OneByteHeader(whole, 0x55, 0);
    OneByteHeader(part, 0x55, 0);
    TightFrameSize(whole);
    TightFrameSize(part);
    hide FrameSize;
    assert whole[0..] == whole && part[0..] == part && whole[..4] == [0x55, 2, 7, 8] && whole[4..] == [9];
    assert NextTurn(TIGHT, part) == Stop(part);
    var clipped := Clipped(TIGHT, part, [8, 9]);
    assert clipped == [2, 7, 8, 9];
    forall i | 0 <= i < 4 ensures !StartsAt(clipped, TIGHT.header, i) { OneByteHeader(clipped, 0x55, i); }
    assert NextTurn(TIGHT, clipped).Stop?;
  }
}
