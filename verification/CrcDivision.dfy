/**
 * What the Modbus CRC is: the remainder of the message, divided as a polynomial over GF(2); and what the one-byte
 * checksums are.
 */
module CrcDivision {
  import opened Bitwise
  import opened Folds
  import opened Checksums
  import opened CrcDetection

  // ---------- Long division of bit strings ----------

  /** x^16 + x^15 + x^2 + 1, highest power first. */
  const GENERATOR: seq<bool> :=
    [true, true, false, false, false, false, false, false, false,
     false, false, false, false, false, true, false, true]

  /** The coefficients of a with those of b added from the front on: over GF(2) adding and subtracting are one. */
  function Added(a: seq<bool>, b: seq<bool>): (sum: seq<bool>)
    requires |b| <= |a|
    ensures |sum| == |a|
  {
    seq(|a|, k requires 0 <= k < |a| => a[k] != (k < |b| && b[k]))
  }

  /** The remainder left by the generator, as by hand: it is taken away wherever it goes into what is left. */
  function Remainder(bits: seq<bool>): (rest: seq<bool>)
    requires |bits| >= 16
    ensures |rest| == 16
    decreases |bits|
  {
    if |bits| == 16 then bits
    else if bits[0] then Remainder(Added(bits, GENERATOR)[1..])
    else Remainder(bits[1..])
  }

  function Repeated(bit: bool, n: nat): (bits: seq<bool>)
    ensures |bits| == n
  {
    seq(n, _ => bit)
  }

  // ---------- The register holds a dividend's front ----------

  /** The register's bits, lowest first. */
  function RegisterBits(r: register): (bits: seq<bool>)
    ensures |bits| == 16
  {
    seq(16, k requires 0 <= k < 16 => Drop(r, k) % 2 == 1)
  }

  lemma {:induction false} BitOfXor(a: nat, b: nat, k: nat)
    ensures (Drop(Xor(a, b), k) % 2 == 1) == ((Drop(a, k) % 2 == 1) != (Drop(b, k) % 2 == 1))
    decreases k
  {
    if k > 0 {
      BitOfXor(a / 2, b / 2, k - 1);
    }
  }

  lemma {:induction false} DropFurther(a: nat, j: nat, k: nat)
    ensures Drop(a, j + k) == Drop(Drop(a, j), k)
    decreases j
  {
    if j > 0 {
      DropFurther(a / 2, j - 1, k);
    }
  }

  function BitOfDigit(digit: nat, i: nat): bool {
    (if i == 0 then digit else if i == 1 then digit / 2 else if i == 2 then digit / 4 else digit / 8) % 2 == 1
  }

  lemma Drops(a: nat)
    ensures Drop(a, 0) == a && Drop(a, 1) == a / 2 && Drop(a, 2) == a / 2 / 2
    ensures Drop(a, 3) == a / 2 / 2 / 2 && Drop(a, 4) == a / 2 / 2 / 2 / 2
  {
    assert Drop(a, 3) == Drop(a / 2, 2) && Drop(a, 4) == Drop(a / 2, 3);
    assert Drop(a / 2, 3) == Drop(a / 2 / 2, 2);
  }

  lemma EvenAhead(x: nat, y: nat)
    ensures (2 * x + y) % 2 == y % 2 && (2 * x + y) / 2 == x + y / 2
  {}

  lemma BitOfLowDigit(high: nat, digit: nat, i: nat)
    requires digit < 16 && i < 4
    ensures (Drop(16 * high + digit, i) % 2 == 1) == BitOfDigit(digit, i)
  {
    hide Drop;
    Drops(16 * high + digit);
    EvenAhead(8 * high, digit);
    if i > 0 {
      EvenAhead(4 * high, digit / 2);
    }
    if i > 1 {
      EvenAhead(2 * high, digit / 2 / 2);
      assert digit / 2 / 2 == digit / 4;
    }
    if i > 2 {
      EvenAhead(high, digit / 2 / 2 / 2);
      assert digit / 2 / 2 / 2 == digit / 8;
    }
  }

  lemma DropDigit(high: nat, digit: nat)
    requires digit < 16
    ensures Drop(16 * high + digit, 4) == high
  {
    Drops(16 * high + digit);
    hide Drop;
  }

  /** Hexadecimal digits, lowest first. */
  function Number(digits: seq<nat>): nat {
    if digits == [] then 0 else 16 * Number(digits[1..]) + digits[0]
  }

  lemma {:induction false} BitOfNumber(digits: seq<nat>, k: nat)
    requires k < 4 * |digits| && forall i :: 0 <= i < |digits| ==> digits[i] < 16
    ensures (Drop(Number(digits), k) % 2 == 1) == BitOfDigit(digits[k / 4], k % 4)
  {
    var high := Number(digits[1..]);
    hide Drop;
    if k < 4 {
      BitOfLowDigit(high, digits[0], k);
    } else {
      BitOfNumber(digits[1..], k - 4);
      DropDigit(high, digits[0]);
      DropFurther(Number(digits), 4, k - 4);
      assert k / 4 == (k - 4) / 4 + 1 && k % 4 == (k - 4) % 4;
    }
  }

  lemma FourDigits(d0: nat, d1: nat, d2: nat, d3: nat)
    ensures Number([d0, d1, d2, d3]) == 4096 * d3 + 256 * d2 + 16 * d1 + d0
  {
    assert [d0, d1, d2, d3][1..] == [d1, d2, d3] && [d1, d2, d3][1..] == [d2, d3] && [d2, d3][1..] == [d3];
    assert [d3][1..] == [] && Number([d3]) == d3 && Number([d2, d3]) == 16 * d3 + d2;
    assert Number([d1, d2, d3]) == 256 * d3 + 16 * d2 + d1;
  }

  /** 0xA001 has its ones at 0, 13 and 15. */
  lemma PolynomialBits()
    ensures RegisterBits(POLYNOMIAL) == GENERATOR[1..]
  {
    hide Drop, Number;
    FourDigits(1, 0, 0, 0xA);
    forall k: nat | k < 16 ensures RegisterBits(POLYNOMIAL)[k] == GENERATOR[1..][k] {
      BitOfNumber([1, 0, 0, 0xA], k);
    }
  }

  /** One shift, with a bit mixed in first, is one step of the division. */
  lemma AbsorbedBits(r: register, bit: bool)
    ensures var front := RegisterBits(r);
            var taken := front[0] != bit;
            RegisterBits(AbsorbBit(r, bit))
            == Added(front[1..] + [false], if taken then GENERATOR[1..] else [])
  {
    var front := RegisterBits(r);
    var taken := front[0] != bit;
    var mixed := Mix(r, BitValue(bit));
    MixedBit(r, bit);
    PolynomialBits();
    Powers();
    DropBounds(r / 2, 15, 0);
    forall k: nat | k < 16
      ensures (Drop(AbsorbBit(r, bit), k) % 2 == 1)
           == ((front[1..] + [false])[k] != (taken && GENERATOR[1..][k]))
    {
      BitOfXor(mixed / 2, POLYNOMIAL, k);
      assert RegisterBits(POLYNOMIAL)[k] == (Drop(POLYNOMIAL, k) % 2 == 1);
      assert Drop(r, k + 1) == Drop(r / 2, k);
      hide Drop, POLYNOMIAL, GENERATOR;
    }
  }

  /** The loop over bits divides what the register holds, added to the bits and sixteen zeros. */
  lemma {:induction false} BitLoopDivides(r: register, bits: seq<bool>)
    ensures RegisterBits(BitLoop(r, bits)) == Remainder(Added(bits + Repeated(false, 16), RegisterBits(r)))
    decreases |bits|
  {
    var front, dividend := RegisterBits(r), Added(bits + Repeated(false, 16), RegisterBits(r));
    hide RegisterBits, AbsorbBit, GENERATOR;
    if bits == [] {
      assert dividend == front;
    } else {
      var bit, rest := bits[0], bits[1..];
      AbsorbedBits(r, bit);
      BitLoopDivides(AbsorbBit(r, bit), rest);
      OneStep(front, bit, rest + Repeated(false, 16));
      assert bits + Repeated(false, 16) == [bit] + (rest + Repeated(false, 16));
    }
  }

  lemma OneStep(front: seq<bool>, bit: bool, rest: seq<bool>)
    requires |front| == 16 && |rest| >= 16
    ensures var taken := front[0] != bit;
            Remainder(Added([bit] + rest, front))
            == Remainder(Added(rest, Added(front[1..] + [false], if taken then GENERATOR[1..] else [])))
  {
    var taken := front[0] != bit;
    var dividend := Added([bit] + rest, front);
    var next := Added(rest, Added(front[1..] + [false], if taken then GENERATOR[1..] else []));
    assert dividend[0] == taken;
    var left := if taken then Added(dividend, GENERATOR)[1..] else dividend[1..];
    forall k: nat | k < |rest| ensures left[k] == next[k] {
    }
    assert left == next;
    hide Added, GENERATOR;
  }

  // ---------- The two bytes of the register ----------

  lemma {:induction false} LowBits(high: nat, low: nat, m: nat, k: nat)
    requires low < Pow2(m) && k < m
    ensures Drop(high * Pow2(m) + low, k) % 2 == Drop(low, k) % 2
    decreases k
  {
    var half := high * Pow2(m - 1);
    assert high * Pow2(m) == 2 * half;
    assert (2 * half + low) / 2 == half + low / 2 && (2 * half + low) % 2 == low % 2;
    if k > 0 {
      LowBits(high, low / 2, m - 1, k - 1);
    }
  }

  lemma DropEight(r: nat)
    ensures Drop(r, 8) == r / 256
  {
    DropFurther(r, 4, 4);
    assert Drop(r, 4) == r / 2 / 2 / 2 / 2 == r / 16;
    assert Drop(r / 16, 4) == r / 16 / 2 / 2 / 2 / 2 == r / 16 / 16;
  }

  lemma LowByteBits(r: register, k: nat)
    requires k < 8
    ensures Drop(r % 256, k) % 2 == Drop(r, k) % 2
  {
    Powers();
    LowBits(r / 256, r % 256, 8, k);
    hide Drop, Pow2;
    assert r / 256 * 256 + r % 256 == r;
  }

  lemma HighByteBits(r: register, k: nat)
    requires 8 <= k < 16
    ensures Drop(r / 256, k - 8) == Drop(r, k)
  {
    DropEight(r);
    DropFurther(r, 8, k - 8);
    hide Drop;
  }

  lemma RegisterOnTheWire(r: register)
    ensures Bits(LittleEndian(r)) == RegisterBits(r)
  {
    var word := LittleEndian(r);
    hide Drop;
    forall k: nat | k < 16 ensures Bits(word)[k] == RegisterBits(r)[k] {
      if k < 8 {
        LowByteBits(r, k);
      } else {
        HighByteBits(r, k);
      }
    }
  }

  lemma AllOnes()
    ensures RegisterBits(INITIAL_CRC) == Repeated(true, 16)
  {
    hide Drop, Number;
    FourDigits(0xF, 0xF, 0xF, 0xF);
    forall k: nat | k < 16 ensures RegisterBits(INITIAL_CRC)[k] {
      BitOfNumber([0xF, 0xF, 0xF, 0xF], k);
    }
  }

  /**
   * For any data, the sixteen bits of the checksum, least significant bit of each byte first, are the remainder of
   * the data's bits in that order and sixteen zeros, with the first sixteen of these bits inverted.
   */
  lemma CrcIsRemainder(data: seq<byte>)
    ensures Bits(Crc16(data)) == Remainder(Added(Bits(data) + Repeated(false, 16), Repeated(true, 16)))
  {
    CrcLoopIsBitLoop(INITIAL_CRC, data);
    BitLoopDivides(INITIAL_CRC, Bits(data));
    RegisterOnTheWire(CrcLoop(INITIAL_CRC, data));
    AllOnes();
    hide Bits, CrcLoop, RegisterBits, Remainder, LittleEndian, INITIAL_CRC;
  }

  // ---------- A published vector ----------

  lemma EightShifts(crc: register, b: byte, a0: register, a1: register, a2: register, a3: register, a4: register,
      a5: register, a6: register, a7: register, a8: register)
    requires Mix(crc, b) == a0
    requires Shift(a0) == a1 && Shift(a1) == a2 && Shift(a2) == a3 && Shift(a3) == a4
    requires Shift(a4) == a5 && Shift(a5) == a6 && Shift(a6) == a7 && Shift(a7) == a8
    ensures AbsorbByte(crc, b) == a8
  {
    hide Shift, Mix;
    assert Iterate(Shift, a6, 2) == a8;
    assert Iterate(Shift, a4, 4) == a8;
    assert Iterate(Shift, a2, 6) == a8;
  }

  /** A power of two flips one bit. */
  lemma {:induction false} XorFlips(a: nat, k: nat)
    ensures Drop(a, k) % 2 == 0 ==> Xor(a, Pow2(k)) == a + Pow2(k)
    ensures Drop(a, k) % 2 == 1 ==> a >= Pow2(k) && Xor(a, Pow2(k)) == a - Pow2(k)
    decreases k
  {
    if k == 0 {
      XorZero(a / 2);
    } else {
      XorFlips(a / 2, k - 1);
    }
  }

  function Flipped(a: nat, p: nat): nat
    requires p > 0
  {
    if a / p % 2 == 1 then a - p else a + p
  }

  lemma FlippedLow(a: nat)
    ensures Xor(a, 1) == Flipped(a, 1) && Xor(a, 2) == Flipped(a, 2)
  {
    XorFlips(a, 0);
    XorFlips(a, 1);
    Drops(a);
    assert Pow2(0) == 1 && Pow2(1) == 2;
    hide Xor, Pow2, Drop;
  }

  lemma DropThirteen(a: nat)
    ensures Drop(a, 13) == a / 0x2000 && Drop(a, 15) == a / 0x8000
  {
    hide Drop;
    DropEight(a);
    DropFurther(a, 8, 4);
    Drops(a / 256);
    Drops(a / 4096);
    assert a / 256 / 2 / 2 / 2 / 2 == a / 4096;
    DropFurther(a, 12, 1);
    DropFurther(a, 12, 3);
  }

  lemma FlippedHigh(a: nat)
    ensures Xor(a, 0x2000) == Flipped(a, 0x2000)
    ensures a < 0x8000 ==> Xor(a, 0x8000) == a + 0x8000
  {
    XorFlips(a, 13);
    XorFlips(a, 15);
    DropThirteen(a);
    Powers();
    assert Pow2(15) == 4 * Pow2(13);
    hide Xor, Pow2, Drop;
  }

  lemma PolynomialIs()
    ensures Xor(Xor(0x2000, 1), 0x8000) == 0xA001
  {
    FlippedLow(0x2000);
    FlippedHigh(0x2001);
    hide Xor;
  }

  lemma FlippedFits(h: nat)
    requires h < 0x8000
    ensures Flipped(h, 0x2000) < 0x8000 && Flipped(h, 1) < 0x8000
  {}

  /** The polynomial's three ones, one at a time: the top one is free, the others flip what is there. */
  lemma ShiftOdd(c: register)
    requires c % 2 == 1
    ensures Shift(c) == Flipped(Flipped(c / 2, 0x2000), 1) + 0x8000
  {
    var h := c / 2;
    assert Shift(c) == Xor(h, 0xA001);
    hide Xor, Shift, Flipped;
    PolynomialIs();
    FlippedFits(h);
    FlippedFits(Flipped(h, 0x2000));
    FlippedHigh(h);
    FlippedLow(Flipped(h, 0x2000));
    FlippedHigh(Flipped(Flipped(h, 0x2000), 1));
    XorAssociates(h, 0x2000, 1);
    XorAssociates(h, Xor(0x2000, 1), 0x8000);
  }

  lemma ShiftEven(c: register)
    requires c % 2 == 0
    ensures Shift(c) == c / 2
  {}

  lemma MixedLow(c: register)
    ensures Mix(c, 1) == Flipped(c, 1) && Mix(c, 2) == Flipped(c, 2) && Mix(c, 3) == Flipped(Flipped(c, 2), 1)
  {
    hide Xor;
    FlippedLow(c);
    FlippedLow(Flipped(c, 2));
    FlippedLow(2);
    XorAssociates(c, 2, 1);
  }

  lemma FirstByte()
    ensures AbsorbByte(0xFFFF, 1) == 0x807E
  {
    hide Shift, Mix, AbsorbByte;
    MixedLow(0xFFFF);
    ShiftEven(0xFFFE);
    ShiftOdd(0x7FFF);
    ShiftEven(0x9FFE);
    ShiftOdd(0x4FFF);
    ShiftEven(0x87FE);
    ShiftOdd(0x43FF);
    ShiftEven(0x81FE);
    ShiftOdd(0x40FF);
    EightShifts(0xFFFF, 1, 0xFFFE, 0x7FFF, 0x9FFE, 0x4FFF, 0x87FE, 0x43FF, 0x81FE, 0x40FF, 0x807E);
  }

  lemma SecondByte()
    ensures AbsorbByte(0x807E, 2) == 0xE181
  {
    hide Shift, Mix, AbsorbByte;
    MixedLow(0x807E);
    ShiftEven(0x807C);
    ShiftEven(0x403E);
    ShiftOdd(0x201F);
    ShiftEven(0xB00E);
    ShiftOdd(0x5807);
    ShiftEven(0x8C02);
    ShiftOdd(0x4601);
    ShiftOdd(0x8301);
    EightShifts(0x807E, 2, 0x807C, 0x403E, 0x201F, 0xB00E, 0x5807, 0x8C02, 0x4601, 0x8301, 0xE181);
  }

  lemma ThirdByte()
    ensures AbsorbByte(0xE181, 3) == 0x6161
  {
    hide Shift, Mix, AbsorbByte;
    MixedLow(0xE181);
    ShiftEven(0xE182);
    ShiftOdd(0x70C1);
    ShiftOdd(0x9861);
    ShiftOdd(0xEC31);
    ShiftOdd(0xD619);
    ShiftOdd(0xCB0D);
    ShiftOdd(0xC587);
    ShiftEven(0xC2C2);
    EightShifts(0xE181, 3, 0xE182, 0x70C1, 0x9861, 0xEC31, 0xD619, 0xCB0D, 0xC587, 0xC2C2, 0x6161);
  }

  /** The bytes 1, 2, 3 have the checksum 0x61, 0x61. */
  lemma CrcOfOneTwoThree()
    ensures Crc16([1, 2, 3]) == [0x61, 0x61]
  {
    FirstByte();
    SecondByte();
    ThirdByte();
    hide AbsorbByte;
    assert [1 as byte, 2, 3][1..] == [2, 3] && [2 as byte, 3][1..] == [3] && [3 as byte][1..] == [];
    assert Fold(AbsorbByte, 0xE181, [3]) == Fold(AbsorbByte, 0x6161, []);
    assert Fold(AbsorbByte, 0x807E, [2, 3]) == Fold(AbsorbByte, 0xE181, [3]);
    assert Fold(AbsorbByte, 0xFFFF, [1, 2, 3]) == Fold(AbsorbByte, 0x807E, [2, 3]);
  }

  // ---------- The one-byte checksums ----------

  function Total(data: seq<byte>): nat {
    if data == [] then 0 else data[0] as nat + Total(data[1..])
  }

  lemma {:induction false} SumFrom(start: byte, data: seq<byte>)
    ensures Fold(AddByte, start, data) as nat == (start as nat + Total(data)) % 256
    decreases |data|
  {
    if data != [] {
      var next := AddByte(start, data[0]);
      SumFrom(next, data[1..]);
      SameModulo(start as nat + data[0] as nat, Total(data[1..]));
    }
  }

  lemma SameModulo(a: nat, b: nat)
    ensures (a % 256 + b) % 256 == (a + b) % 256
  {
    assert a == 256 * (a / 256) + a % 256;
  }

  /** SUM-8 is the sum of the bytes, modulo 256. */
  lemma SumIsTotal(data: seq<byte>)
    ensures |Sum8(data)| == 1 && Sum8(data)[0] as nat == Total(data) % 256
  {
    SumFrom(0, data);
  }

  /** How many bytes have this bit set. */
  function Ones(data: seq<byte>, i: nat): nat
    requires i < 8
  {
    if data == [] then 0 else (if BitOf(data[0], i) then 1 else 0) + Ones(data[1..], i)
  }

  lemma {:induction false} XorFrom(start: byte, data: seq<byte>, i: nat)
    requires i < 8
    ensures BitOf(Fold(XorByte, start, data), i) <==> (Ones(data, i) + if BitOf(start, i) then 1 else 0) % 2 == 1
    decreases |data|
  {
    hide Drop, Xor;
    if data != [] {
      BitOfXor(start as nat, data[0] as nat, i);
      XorFrom(XorByte(start, data[0]), data[1..], i);
    }
  }

  /** A bit of XOR-8 is set exactly when an odd number of bytes have it set. */
  lemma XorIsParity(data: seq<byte>, i: nat)
    requires i < 8
    ensures |Xor8(data)| == 1 && (BitOf(Xor8(data)[0], i) <==> Ones(data, i) % 2 == 1)
  {
    XorFrom(0, data, i);
    DropsOfZero(i);
    hide Drop;
  }

  lemma {:induction false} DropsOfZero(i: nat)
    ensures Drop(0, i) == 0
    decreases i
  {
    if i > 0 {
      DropsOfZero(i - 1);
    }
  }
}
