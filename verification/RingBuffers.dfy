/** The redirector's circular byte buffers. */
module RingBuffers {
  import opened Bitwise

  const BUFFER_SIZE: nat := 2048

  /** One slot stays free, to tell full from empty. */
  const CAPACITY: nat := BUFFER_SIZE - 1

  const UINT_RANGE: nat := 0x1_0000_0000

  /** What -1 becomes as an unsigned int. */
  const MINUS_ONE: nat := UINT_RANGE - 1

  /** The bytes from rd up to wr, around the end of the array if need be. */
  function Window(a: seq<byte>, rd: nat, wr: nat): (s: seq<byte>)
    requires |a| == BUFFER_SIZE && rd < BUFFER_SIZE && wr < BUFFER_SIZE
    ensures |s| == if rd <= wr then wr - rd else BUFFER_SIZE - rd + wr
  {
    if rd <= wr then a[rd..wr] else a[rd..] + a[..wr]
  }

  function Next(position: nat): nat { (position + 1) % BUFFER_SIZE }

  lemma NextIs(position: nat)
    requires position < BUFFER_SIZE
    ensures Next(position) == if position == BUFFER_SIZE - 1 then 0 else position + 1
  {}

  lemma PushedWindow(a: seq<byte>, rd: nat, wr: nat, c: byte)
    requires |a| == BUFFER_SIZE && rd < BUFFER_SIZE && wr < BUFFER_SIZE
    requires |Window(a, rd, wr)| < CAPACITY
    ensures Window(a[wr := c], rd, Next(wr)) == Window(a, rd, wr) + [c]
  {
    NextIs(wr);
    if rd <= wr && wr == BUFFER_SIZE - 1 {
      assert a[wr := c][rd..] == a[rd..wr] + [c];
    } else if rd <= wr {
      assert a[wr := c][rd..wr + 1] == a[rd..wr] + [c];
    } else {
      assert a[wr := c][rd..] == a[rd..];
      assert a[wr := c][..wr + 1] == a[..wr] + [c];
    }
  }

  /** Over a full buffer the write position catches up with the read position. */
  lemma OverfilledWindow(a: seq<byte>, rd: nat, wr: nat, c: byte)
    requires |a| == BUFFER_SIZE && rd < BUFFER_SIZE && wr < BUFFER_SIZE
    requires |Window(a, rd, wr)| == CAPACITY
    ensures Window(a[wr := c], rd, Next(wr)) == []
  {
    NextIs(wr);
  }

  /** One byte more; without the assertion, one too many takes all that waits with it. */
  function Added(was: seq<byte>, c: byte): (now: seq<byte>)
    ensures |was| <= CAPACITY ==> |now| <= CAPACITY
  {
    if |was| < CAPACITY then was + [c] else []
  }

  function AddedAll(was: seq<byte>, wire: seq<byte>): (now: seq<byte>)
    ensures |was| <= CAPACITY ==> |now| <= CAPACITY
  {
    if wire == [] then was else Added(AddedAll(was, wire[..|wire| - 1]), wire[|wire| - 1])
  }

  lemma {:induction false} AddedAppend(was: seq<byte>, a: seq<byte>, b: seq<byte>)
    ensures AddedAll(was, a + b) == AddedAll(AddedAll(was, a), b)
    decreases |b|
  {
    if b == [] {
      assert a + b == a;
    } else {
      var n := |b| - 1;
      AddedAppend(was, a, b[..n]);
      assert (a + b)[..|a| + n] == a + b[..n] && (a + b)[|a| + n] == b[n];
    }
  }

  lemma AddedOne(was: seq<byte>, c: byte)
    ensures AddedAll(was, [c]) == Added(was, c)
  {
    assert [c][..0] == [];
  }

  /** With room for all of it, it is appended. */
  lemma {:induction false} AddedWithRoom(was: seq<byte>, wire: seq<byte>)
    requires |was| + |wire| <= CAPACITY
    ensures AddedAll(was, wire) == was + wire
    decreases |wire|
  {
    if wire == [] {
      assert was + wire == was;
    } else {
      var n := |wire| - 1;
      AddedWithRoom(was, wire[..n]);
      assert was + wire[..n] + [wire[n]] == was + wire;
    }
  }

  /** Without, what waited and all that fitted is gone, and the byte too many with it. */
  lemma AddedWithoutRoom(was: seq<byte>, wire: seq<byte>)
    requires |was| <= CAPACITY < |was| + |wire| && |wire| <= CAPACITY
    ensures AddedAll(was, wire) == wire[CAPACITY - |was| + 1..]
  {
    var room := CAPACITY - |was|;
    var fits, over, rest := wire[..room], wire[room], wire[room + 1..];
    assert wire == fits + [over] + rest;
    AddedWithRoom(was, fits);
    AddedAppend(was, fits, [over]);
    AddedOne(was + fits, over);
    AddedAppend(was, fits + [over], rest);
    AddedWithRoom([], rest);
    assert [] + rest == rest;
    hide AddedAll;
  }

  lemma PoppedWindow(a: seq<byte>, rd: nat, wr: nat, n: nat)
    requires |a| == BUFFER_SIZE && rd < BUFFER_SIZE && wr < BUFFER_SIZE
    requires n <= |Window(a, rd, wr)|
    ensures Window(a, (rd + n) % BUFFER_SIZE, wr) == Window(a, rd, wr)[n..]
  {
    if rd <= wr {
      assert (rd + n) % BUFFER_SIZE == rd + n;
    } else if rd + n < BUFFER_SIZE {
      assert (rd + n) % BUFFER_SIZE == rd + n;
      assert (a[rd..] + a[..wr])[n..] == a[rd + n..] + a[..wr];
    } else {
      assert (rd + n) % BUFFER_SIZE == rd + n - BUFFER_SIZE;
      assert (a[rd..] + a[..wr])[n..] == a[rd + n - BUFFER_SIZE..wr];
    }
  }

  lemma UnpoppedWindow(a: seq<byte>, rd: nat, wr: nat)
    requires |a| == BUFFER_SIZE && rd < BUFFER_SIZE && wr < BUFFER_SIZE
    ensures var was, now := Window(a, rd, wr), Window(a, (rd + BUFFER_SIZE - 1) % BUFFER_SIZE, wr);
            if |was| < CAPACITY then |now| == |was| + 1 && now[1..] == was else now == []
  {
    if rd == 0 {
      assert (rd + BUFFER_SIZE - 1) % BUFFER_SIZE == BUFFER_SIZE - 1;
    } else {
      assert (rd + BUFFER_SIZE - 1) % BUFFER_SIZE == rd - 1;
    }
  }

  lemma UnsignedSum(position: nat, length: nat)
    requires position < BUFFER_SIZE && length < UINT_RANGE
    ensures (position + length) % UINT_RANGE % BUFFER_SIZE == (position + length) % BUFFER_SIZE
    ensures length == MINUS_ONE ==> (position + length) % BUFFER_SIZE == (position + BUFFER_SIZE - 1) % BUFFER_SIZE
  {
    var sum := position + length;
    if sum >= UINT_RANGE {
      assert sum % UINT_RANGE == sum - UINT_RANGE == sum - 2097152 * BUFFER_SIZE;
    }
  }

  /** How full a buffer is, and where in the array its oldest byte lies. */
  datatype Gauge = Gauge(waiting: nat, from: nat)
  {
    function Room(): nat { if waiting <= CAPACITY then CAPACITY - waiting else 0 }

    /** How much lies before the end of the array. */
    function Contiguous(): nat {
      if from + waiting <= BUFFER_SIZE then waiting else if from <= BUFFER_SIZE then BUFFER_SIZE - from else 0
    }

    function Plus(n: nat): Gauge { Gauge(waiting + n, from) }

    function Minus(n: nat): Gauge
      requires n <= waiting
    {
      Gauge(waiting - n, (from + n) % BUFFER_SIZE)
    }

    /** After n bytes were added without an assertion and without room for them. */
    function Overfilled(n: nat): Gauge
      requires n > Room()
    {
      Gauge(n - Room() - 1, from)
    }

    /** After a blocked write: one stale byte more, or nothing left of a full buffer. */
    function Unwritten(): Gauge {
      Gauge(if waiting < CAPACITY then waiting + 1 else 0, (from + BUFFER_SIZE - 1) % BUFFER_SIZE)
    }
  }

  class RingBuffer {
    const bytes: array<byte>
    var rdPos: nat
    var wrPos: nat

    ghost predicate Valid()
      reads this
    {
      bytes.Length == BUFFER_SIZE && rdPos < BUFFER_SIZE && wrPos < BUFFER_SIZE
    }

    /** The bytes waiting, oldest first. */
    ghost function Contents(): (s: seq<byte>)
      requires Valid()
      reads this, bytes
      ensures |s| <= CAPACITY
    {
      Window(bytes[..], rdPos, wrPos)
    }

    /** A buffer whose positions are still whatever memory held. */
    constructor ()
      ensures bytes.Length == BUFFER_SIZE && fresh(bytes)
    {
      bytes := new byte[BUFFER_SIZE];
      rdPos := *;
      wrPos := *;
    }

    method InitBuffer()
      requires bytes.Length == BUFFER_SIZE
      modifies this
      ensures Valid() && Contents() == [] && rdPos == 0
    {
      rdPos := 0;
      wrPos := 0;
    }

    function BufferLength(): (length: nat)
      requires Valid()
      reads this, bytes
      ensures length == |Contents()|
    {
      (wrPos - rdPos + BUFFER_SIZE) % BUFFER_SIZE
    }

    function BufferRoomLeft(): (room: nat)
      requires Valid()
      reads this, bytes
      ensures room == CAPACITY - |Contents()|
    {
      BUFFER_SIZE - 1 - BufferLength()
    }

    predicate BufferHasRoomFor(x: nat)
      requires Valid()
      reads this, bytes
    {
      BufferRoomLeft() >= x
    }

    predicate IsBufferEmpty()
      requires Valid()
      reads this, bytes
    {
      BufferLength() == 0
    }

    /** Past the assertion the source makes here; whoever calls this without room answers for it. */
    method AddToBuffer(c: byte)
      requires Valid()
      modifies this`wrPos, bytes
      ensures Valid() && Contents() == Added(old(Contents()), c)
    {
      if BufferHasRoomFor(1) {
        PushedWindow(bytes[..], rdPos, wrPos, c);
      } else {
        OverfilledWindow(bytes[..], rdPos, wrPos, c);
      }
      hide Window;
      ghost var after := bytes[..][wrPos := c];
      bytes[wrPos] := c;
      assert bytes[..] == after;
      wrPos := (wrPos + 1) % BUFFER_SIZE;
    }

    method GetFromBuffer() returns (c: byte)
      requires Valid()
      modifies this`rdPos
      ensures Valid()
      ensures var was := old(Contents()); was != [] ==> c == was[0] && Contents() == was[1..]
    {
      if Contents() != [] {
        PoppedWindow(bytes[..], rdPos, wrPos, 1);
        assert bytes[rdPos] == Contents()[0];
      }
      hide Window;
      c := bytes[rdPos];
      rdPos := (rdPos + 1) % BUFFER_SIZE;
    }

    ghost function Level(): Gauge
      requires Valid()
      reads this, bytes
    {
      Gauge(|Contents()|, rdPos)
    }

    /** How many bytes can be written out from rdPos without wrapping around. */
    method GetBufferString() returns (length: nat)
      requires Valid()
      ensures rdPos + length <= BUFFER_SIZE && length <= |Contents()|
      ensures bytes[rdPos..rdPos + length] == Contents()[..length]
      ensures length == 0 <==> Contents() == []
      ensures length == Level().Contiguous()
    {
      if rdPos <= wrPos {
        length := wrPos - rdPos;
      } else {
        length := BUFFER_SIZE - rdPos;
      }
    }

    /**
     * Drops what was written out. A blocked write passes -1, which as an unsigned int moves the read
     * position one back: a stale byte comes in front, or, if the buffer was full, everything is lost.
     */
    method BufferPopBytes(length: nat)
      requires Valid() && length < UINT_RANGE
      modifies this`rdPos
      ensures Valid()
      ensures var was := old(Contents()); length <= |was| ==> Contents() == was[length..]
      ensures var was := old(Contents());
              length == MINUS_ONE && |was| < CAPACITY ==> |Contents()| == |was| + 1 && Contents()[1..] == was
      ensures length == MINUS_ONE && |old(Contents())| == CAPACITY ==> Contents() == []
      ensures length <= |old(Contents())| ==> Level() == old(Level()).Minus(length)
      ensures length == MINUS_ONE ==> Level() == old(Level()).Unwritten()
    {
      if length <= |Contents()| {
        PoppedWindow(bytes[..], rdPos, wrPos, length);
      }
      UnpoppedWindow(bytes[..], rdPos, wrPos);
      hide Window;
      UnsignedSum(rdPos, length);
      rdPos := (rdPos + length) % UINT_RANGE % BUFFER_SIZE;
    }
  }
}
