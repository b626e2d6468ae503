/**
 * What the Modbus CRC detects: every burst confined to 16 consecutive bits, wherever it lies, and every
 * odd number of flipped bits. The first holds because the register forgets nothing: two runs that end in
 * the same register agreed on everything the last 16 bits could have hidden.
 */
module CrcDetection {
  import opened Bitwise
  import opened Folds
  import opened Checksums

  // ---------- One shift of the register ----------

  lemma ParityShowsOnTop(x: register, y: register, n: nat)
    requires n < 16 && x % 2 == 1 && y % 2 == 0
    ensures Drop(Shift(x), n) != Drop(Shift(y), n)
  {
    Powers();
    DropOfXor(x / 2, POLYNOMIAL, n);
    DropBounds(x / 2, n, 15 - n);
    DropBounds(y / 2, n, 15 - n);
    DropBounds(POLYNOMIAL, n, 15 - n);
    XorKeepsTopBit(Drop(x / 2, n), Drop(POLYNOMIAL, n), 15 - n);
  }

  /**
   * The top bit of the shifted register tells whether the polynomial came in, so registers that agree
   * after a shift, apart from their lowest n < 16 bits, agreed before it apart from their lowest n + 1.
   */
  lemma ShiftTracesBack(x: register, y: register, n: nat)
    requires n < 16
    requires Drop(Shift(x), n) == Drop(Shift(y), n)
    ensures x % 2 == y % 2
    ensures Drop(x, n + 1) == Drop(y, n + 1)
  {
    if x % 2 == 1 && y % 2 == 0 {
      ParityShowsOnTop(x, y, n);
    } else if x % 2 == 0 && y % 2 == 1 {
      ParityShowsOnTop(y, x, n);
    } else if x % 2 == 1 {
      DropOfXor(x / 2, POLYNOMIAL, n);
      DropOfXor(y / 2, POLYNOMIAL, n);
      XorCancels(Drop(x / 2, n), Drop(POLYNOMIAL, n));
      XorCancels(Drop(y / 2, n), Drop(POLYNOMIAL, n));
    }
  }

  lemma ShiftIsInjective(x: register, y: register)
    requires Shift(x) == Shift(y)
    ensures x == y
  {
    ShiftTracesBack(x, y, 0);
    assert Drop(x, 1) == x / 2 && Drop(y, 1) == y / 2;
  }

  /** Shifting any number of times forgets nothing. */
  lemma ShiftsAreInjective(a: register, b: register, n: nat)
    requires Iterate(Shift, a, n) == Iterate(Shift, b, n)
    ensures a == b
  {
    forall x, y | Shift(x) == Shift(y) ensures x == y { ShiftIsInjective(x, y); }
    IterateIsInjective(Shift, a, b, n);
  }

  // ---------- The loop over bytes is a loop over bits ----------

  function BitValue(bit: bool): byte { if bit then 1 else 0 }

  function AbsorbBit(crc: register, bit: bool): register { Shift(Mix(crc, BitValue(bit))) }

  /** The register fed one bit at a time: the bitwise reference for the byte-wise loop. */
  function BitLoop(crc: register, bits: seq<bool>): register { Fold(AbsorbBit, crc, bits) }

  function Half(b: byte): byte { b / 2 }

  predicate IsOdd(b: byte) { b % 2 == 1 }

  lemma MixedBit(crc: register, bit: bool)
    ensures Mix(crc, BitValue(bit)) / 2 == crc / 2
    ensures Mix(crc, BitValue(bit)) % 2 == (if (crc % 2 == 1) != bit then 1 else 0)
  {
    XorZero(crc / 2);
  }

  lemma PolynomialGoesLast(a: nat, b: nat)
    ensures Xor(Xor(a, b), POLYNOMIAL) == Xor(Xor(a, POLYNOMIAL), b)
  {
    XorAssociates(a, b, POLYNOMIAL);
    XorCommutes(b, POLYNOMIAL);
    XorAssociates(a, POLYNOMIAL, b);
  }

  /** Only the lowest bit of what is mixed in can bring the polynomial in; the rest just moves. */
  lemma MixMoves(crc: register, b: byte)
    ensures Shift(Mix(crc, b)) == Mix(AbsorbBit(crc, IsOdd(b)), Half(b))
  {
    var mixed := Mix(crc, b);
    assert mixed / 2 == Xor(crc / 2, b as nat / 2);
    assert mixed % 2 == (if (crc % 2 == 1) != IsOdd(b) then 1 else 0);
    MixedBit(crc, IsOdd(b));
    PolynomialGoesLast(crc / 2, b as nat / 2);
  }

  lemma {:induction false} IterateHalfIsDrop(b: byte, n: nat)
    ensures Iterate(Half, b, n) as nat == Drop(b as nat, n)
    decreases n
  {
    if n > 0 {
      IterateHalfIsDrop(Half(b), n - 1);
    }
  }

  lemma ByteFedLowestFirstAt(b: byte, i: nat)
    requires i < 8
    ensures LowestFirst(IsOdd, Half, b, 8)[i] == Bits([b])[i]
  {
    hide Half, LowestFirst;
    LowestFirstAt(IsOdd, Half, b, 8, i);
    IterateHalfIsDrop(b, i);
    assert Bits([b])[i] == BitOf(b, i);
  }

  lemma ByteFedLowestFirst(b: byte)
    ensures LowestFirst(IsOdd, Half, b, 8) == Bits([b])
    ensures Iterate(Half, b, 8) == 0
  {
    forall i: nat | i < 8 ensures LowestFirst(IsOdd, Half, b, 8)[i] == Bits([b])[i] {
      ByteFedLowestFirstAt(b, i);
    }
    hide Bits, LowestFirst;
    IterateHalfIsDrop(b, 8);
    Powers();
    DropBounds(b as nat, 8, 0);
  }

  lemma ByteIsItsBits(crc: register, b: byte)
    ensures AbsorbByte(crc, b) == BitLoop(crc, Bits([b]))
  {
    hide Shift, Mix, AbsorbBit, IsOdd, Half, Bits, LowestFirst;
    forall c, w ensures Shift(Mix(c, w)) == Mix(AbsorbBit(c, IsOdd(w)), Half(w)) { MixMoves(c, w); }
    MixedAtOnceOrFed(Shift, Mix, AbsorbBit, IsOdd, Half, crc, b, 8);
    ByteFedLowestFirst(b);
    MixWithZero(BitLoop(crc, Bits([b])));
  }

  lemma MixWithZero(crc: register)
    ensures Mix(crc, 0) == crc
  {
    XorZero(crc);
  }

  /** The byte-wise register loop computes the bitwise one. */
  lemma {:induction false} CrcLoopIsBitLoop(crc: register, word: seq<byte>)
    ensures CrcLoop(crc, word) == BitLoop(crc, Bits(word))
    decreases |word|
  {
    hide AbsorbByte, AbsorbBit;
    if word != [] {
      BitsOfFirstByte(word);
      assert word[..1] == [word[0]];
      ByteIsItsBits(crc, word[0]);
      FoldAppend(AbsorbBit, crc, Bits(word[..1]), Bits(word[1..]));
      CrcLoopIsBitLoop(AbsorbByte(crc, word[0]), word[1..]);
    }
  }

  // ---------- Bursts ----------

  predicate AgreeAbove(n: nat, a: register, b: register) { Drop(a, n) == Drop(b, n) }

  lemma BitTracesBack(n: nat, a: register, b: register, s: bool, t: bool)
    requires n < 16 && AgreeAbove(n, AbsorbBit(a, s), AbsorbBit(b, t))
    ensures AgreeAbove(n + 1, a, b)
    ensures a == b ==> s == t
  {
    hide Shift, Mix;
    MixedBit(a, s);
    MixedBit(b, t);
    ShiftTracesBack(Mix(a, BitValue(s)), Mix(b, BitValue(t)), n);
  }

  lemma AbsorbBitIsInjective(a: register, b: register, bit: bool)
    requires AbsorbBit(a, bit) == AbsorbBit(b, bit)
    ensures a == b
  {
    ShiftIsInjective(Mix(a, BitValue(bit)), Mix(b, BitValue(bit)));
    XorCancels(a, BitValue(bit) as nat);
    XorCancels(b, BitValue(bit) as nat);
  }

  lemma AbsorbBitIsTraceable()
    ensures Traceable(AbsorbBit, AgreeAbove, 16)
  {
    hide AbsorbBit;
    forall a, b, t | AbsorbBit(a, t) == AbsorbBit(b, t) ensures a == b {
      AbsorbBitIsInjective(a, b, t);
    }
    forall n: nat, a, b, s, t | n < 16 && AgreeAbove(n, AbsorbBit(a, s), AbsorbBit(b, t)) ensures AgreeAbove(n + 1,
        a, b) {
      BitTracesBack(n, a, b, s, t);
    }
    forall n: nat, a, s, t | n < 16 && AgreeAbove(n, AbsorbBit(a, s), AbsorbBit(a, t)) ensures s == t {
      BitTracesBack(n, a, a, s, t);
    }
  }

  /** The words differ, if at all, only in bits from .. from + 15. */
  ghost predicate DifferInBurst(w: seq<byte>, v: seq<byte>, from: nat) {
    |w| == |v| && forall k: nat :: k < 8 * |w| && !(from <= k < from + 16) ==> Bit(w, k) == Bit(v, k)
  }

  /** Words of one length that differ in one burst of at most 16 bits never share a register value. */
  lemma BurstChangesRegister(w: seq<byte>, v: seq<byte>, from: nat)
    requires DifferInBurst(w, v, from)
    requires w != v
    ensures CrcLoop(INITIAL_CRC, w) != CrcLoop(INITIAL_CRC, v)
  {
    var bits := 8 * |w|;
    var start := if from < bits then from else bits;
    var stop := if from + 16 < bits then from + 16 else bits;
    CrcLoopIsBitLoop(INITIAL_CRC, w);
    CrcLoopIsBitLoop(INITIAL_CRC, v);
    forall k: nat | k < bits && !(start <= k < stop) ensures Bits(w)[k] == Bits(v)[k] {
      assert Bit(w, k) == Bit(v, k);
    }
    if CrcLoop(INITIAL_CRC, w) == CrcLoop(INITIAL_CRC, v) {
      AbsorbBitIsTraceable();
      BurstShows(AbsorbBit, AgreeAbove, 16, INITIAL_CRC, Bits(w), Bits(v), start, stop);
      BitsDetermineWord(w, v);
    }
  }

  // ---------- Passing the check ----------

  lemma {:induction false} LowZerosJustMove(high: register, n: nat, w: register)
    requires high == w * Pow2(n)
    ensures Iterate(Shift, high, n) == w
    decreases n
  {
    if n > 0 {
      assert high == 2 * (w * Pow2(n - 1));
      LowZerosJustMove(high / 2, n - 1, w);
    }
  }

  /** A byte brings the register to 0 exactly when it is the register. */
  lemma ClearingByte(r: register, hi: byte)
    ensures AbsorbByte(r, hi) == 0 <==> r == hi as nat
  {
    LowZerosJustMove(0, 8, 0);
    if AbsorbByte(r, hi) == 0 {
      ShiftsAreInjective(Mix(r, hi), 0, 8);
    }
    XorCancels(r, hi as nat);
    XorCommutes(0, hi as nat);
    XorZero(hi as nat);
    XorSelf(hi as nat);
  }

  /** A byte leaves hi in the register exactly when the two spell what the register was. */
  lemma LoweringByte(r: register, lo: byte, hi: byte)
    ensures AbsorbByte(r, lo) == hi as nat <==> r == 256 * hi as nat + lo as nat
  {
    var low, high: register := lo as nat, 256 * hi as nat;
    Powers();
    LowZerosJustMove(high, 8, hi as nat);
    if AbsorbByte(r, lo) == hi as nat {
      ShiftsAreInjective(Mix(r, lo), high, 8);
    }
    XorOfSeparate(hi as nat, low, 8);
    XorCancels(r, low);
    XorCancels(high, low);
  }

  /** Appending the register's bytes, low byte first, and nothing else, brings the loop to 0. */
  lemma TwoBytesClearRegister(r: register, lo: byte, hi: byte)
    ensures AbsorbByte(AbsorbByte(r, lo), hi) == 0 <==> [lo, hi] == LittleEndian(r)
  {
    hide AbsorbByte;
    ClearingByte(AbsorbByte(r, lo), hi);
    LoweringByte(r, lo, hi);
  }

  /** A word passes exactly when it holds a checksum and the loop over all of it ends at 0. */
  lemma PassesExactlyWhenLoopEndsAtZero(word: seq<byte>)
    ensures HasChecksum(Crc16, word) <==> |word| >= 2 && CrcLoop(INITIAL_CRC, word) == 0
  {
    hide AbsorbByte, LittleEndian;
    CrcIsTwoBytes([]);
    if |word| >= 2 {
      var body, lo, hi := word[..|word| - 2], word[|word| - 2], word[|word| - 1];
      CrcIsTwoBytes(body);
      assert word == body + [lo, hi];
      var r := CrcLoop(INITIAL_CRC, body);
      FoldAppend(AbsorbByte, INITIAL_CRC, body, [lo, hi]);
      LoopOverTwo(r, lo, hi);
      TwoBytesClearRegister(r, lo, hi);
      assert WithChecksum(Crc16, body) == body + LittleEndian(r);
      assert HasChecksum(Crc16, word) <==> body + LittleEndian(r) == word;
      if body + LittleEndian(r) == body + [lo, hi] {
        assert LittleEndian(r) == (body + LittleEndian(r))[|body|..] == (body + [lo, hi])[|body|..] == [lo, hi];
      }
    }
  }

  lemma CrcIsTwoBytes(data: seq<byte>)
    ensures |Crc16(data)| == 2
  {}

  lemma LoopOverTwo(r: register, lo: byte, hi: byte)
    ensures CrcLoop(r, [lo, hi]) == AbsorbByte(AbsorbByte(r, lo), hi)
  {
    hide AbsorbByte;
    assert [lo, hi][1..] == [hi] && [hi][1..] == [];
    assert Fold(AbsorbByte, r, [lo, hi]) == Fold(AbsorbByte, AbsorbByte(r, lo), [hi]);
    assert Fold(AbsorbByte, AbsorbByte(r, lo), [hi]) == Fold(AbsorbByte, AbsorbByte(AbsorbByte(r, lo), hi), []);
  }

  /** Damage confined to 16 consecutive bits, body or checksum, is always caught. */
  lemma BurstIsDetected(word: seq<byte>, damaged: seq<byte>, from: nat)
    requires DifferInBurst(word, damaged, from)
    ensures HasChecksum(Crc16, word) ==> (HasChecksum(Crc16, damaged) <==> damaged == word)
  {
    PassesExactlyWhenLoopEndsAtZero(word);
    PassesExactlyWhenLoopEndsAtZero(damaged);
    if damaged != word {
      BurstChangesRegister(word, damaged, from);
    }
  }

  // ---------- Odd numbers of flips ----------

  /** Whether a number has an odd number of ones. */
  predicate OddOnes(a: nat) {
    if a == 0 then false else (a % 2 == 1) != OddOnes(a / 2)
  }

  lemma {:induction false} OddOnesOfXor(a: nat, b: nat)
    ensures OddOnes(Xor(a, b)) == (OddOnes(a) != OddOnes(b))
    decreases a + b
  {
    if a != 0 || b != 0 {
      OddOnesOfXor(a / 2, b / 2);
    }
  }

  /** The polynomial has three ones and replaces one, so a shift never changes the parity. */
  lemma ShiftKeepsParity(crc: register)
    ensures OddOnes(Shift(crc)) == OddOnes(crc)
  {
    OddOnesOfXor(crc / 2, POLYNOMIAL);
    assert !OddOnes(0x5);
    assert !OddOnes(0x50);
    assert !OddOnes(0x500);
    assert !OddOnes(0x5000);
    assert OddOnes(0xA001);
  }

  predicate OddTrues(bits: seq<bool>) {
    if bits == [] then false else bits[0] != OddTrues(bits[1..])
  }

  lemma {:induction false} BitLoopParity(crc: register, bits: seq<bool>)
    ensures OddOnes(BitLoop(crc, bits)) == (OddOnes(crc) != OddTrues(bits))
    decreases |bits|
  {
    hide Shift;
    if bits != [] {
      OddOnesOfXor(crc, BitValue(bits[0]) as nat);
      ShiftKeepsParity(Mix(crc, BitValue(bits[0])));
      BitLoopParity(AbsorbBit(crc, bits[0]), bits[1..]);
    }
  }

  function Flips(p: seq<bool>, q: seq<bool>): seq<bool>
    requires |p| == |q|
  {
    seq(|p|, k requires 0 <= k < |p| => p[k] != q[k])
  }

  lemma {:induction false} FlipsParity(p: seq<bool>, q: seq<bool>)
    requires |p| == |q|
    ensures OddTrues(Flips(p, q)) == (OddTrues(p) != OddTrues(q))
  {
    if p != [] {
      assert Flips(p, q)[1..] == Flips(p[1..], q[1..]);
      FlipsParity(p[1..], q[1..]);
    }
  }

  /** Any odd number of flipped bits, however scattered, is always caught. */
  lemma OddFlipsAreDetected(word: seq<byte>, damaged: seq<byte>)
    requires |damaged| == |word|
    requires OddTrues(Flips(Bits(word), Bits(damaged)))
    ensures HasChecksum(Crc16, word) ==> !HasChecksum(Crc16, damaged)
  {
    PassesExactlyWhenLoopEndsAtZero(word);
    PassesExactlyWhenLoopEndsAtZero(damaged);
    CrcLoopIsBitLoop(INITIAL_CRC, word);
    CrcLoopIsBitLoop(INITIAL_CRC, damaged);
    BitLoopParity(INITIAL_CRC, Bits(word));
    BitLoopParity(INITIAL_CRC, Bits(damaged));
    FlipsParity(Bits(word), Bits(damaged));
  }
}
