/** The pluggable checksums of Checksum.kt. */
module Checksums {
  import opened Bitwise
  import opened Folds

  type Checksum = seq<byte> -> seq<byte>

  // ---------- XOR-8 and SUM-8: folds over the data ----------

  function XorByte(sum: byte, b: byte): byte {
    Powers();
    XorFits(sum as nat, b as nat, 8);
    Xor(sum as nat, b as nat) as byte
  }

  function AddByte(sum: byte, b: byte): byte { ((sum as nat + b as nat) % 256) as byte }

  function Xor8(data: seq<byte>): seq<byte> { [Fold(XorByte, 0, data)] }

  function Sum8(data: seq<byte>): seq<byte> { [Fold(AddByte, 0, data)] }

  ghost predicate DifferInOneByte(p: seq<byte>, q: seq<byte>, at: nat) {
    at < |p| && p != q && DifferOnlyWithin(p, q, at, at + 1)
  }

  predicate AgreeUnlessJustFed(n: nat, a: byte, b: byte) { n == 0 ==> a == b }

  lemma XorByteIsTraceable()
    ensures Traceable(XorByte, AgreeUnlessJustFed, 1)
  {
    forall a, b, t | XorByte(a, t) == XorByte(b, t) ensures a == b {
      XorCancels(a as nat, t as nat);
      XorCancels(b as nat, t as nat);
    }
    forall s, t, a | XorByte(a, s) == XorByte(a, t) ensures s == t {
      XorCommutes(a as nat, s as nat);
      XorCommutes(a as nat, t as nat);
      XorCancels(s as nat, a as nat);
      XorCancels(t as nat, a as nat);
    }
    hide XorByte;
  }

  lemma AddByteIsInjective(a: byte, b: byte, t: byte)
    ensures AddByte(a, t) == AddByte(b, t) ==> a == b
    ensures AddByte(t, a) == AddByte(t, b) ==> a == b
  {
    if (a as nat + t as nat) % 256 == (b as nat + t as nat) % 256 {
      SumStaysApart(a as nat, b as nat, t as nat);
    }
  }

  lemma SumStaysApart(a: nat, b: nat, t: nat)
    requires a < 256 && b < 256 && t < 256
    requires (a + t) % 256 == (b + t) % 256
    ensures a == b
  {}

  lemma AddByteIsTraceable()
    ensures Traceable(AddByte, AgreeUnlessJustFed, 1)
  {
    hide AddByte;
    forall a, b, t ensures AddByte(a, t) == AddByte(b, t) ==> a == b { AddByteIsInjective(a, b, t); }
    forall a, b, t ensures AddByte(t, a) == AddByte(t, b) ==> a == b { AddByteIsInjective(a, b, t); }
  }

  /** Replacing any one byte by another changes both one-byte checksums. */
  lemma SubstitutionChangesSums(p: seq<byte>, q: seq<byte>, at: nat)
    requires DifferInOneByte(p, q, at)
    ensures Xor8(p) != Xor8(q) && Sum8(p) != Sum8(q)
  {
    hide XorByte, AddByte, AgreeUnlessJustFed, Traceable;
    XorByteIsTraceable();
    AddByteIsTraceable();
    if Xor8(p) == Xor8(q) {
      BurstShows(XorByte, AgreeUnlessJustFed, 1, 0, p, q, at, at + 1);
    }
    if Sum8(p) == Sum8(q) {
      BurstShows(AddByte, AgreeUnlessJustFed, 1, 0, p, q, at, at + 1);
    }
  }

  // ---------- CRC-16 (Modbus) ----------

  type register = c: nat | c < 0x1_0000

  const INITIAL_CRC: register := 0xFFFF
  const POLYNOMIAL: register := 0xA001

  function Mix(crc: register, b: byte): register {
    Powers();
    XorFits(crc, b as nat, 16);
    Xor(crc, b as nat)
  }

  /** One turn of the inner loop: the register moves right, the polynomial comes in when a 1 leaves. */
  function Shift(crc: register): register {
    Powers();
    XorFits(crc / 2, POLYNOMIAL, 16);
    if crc % 2 != 0 then Xor(crc / 2, POLYNOMIAL) else crc / 2
  }

  /** One byte: mixed into the low end, then shifted through. */
  function AbsorbByte(crc: register, b: byte): register { Iterate(Shift, Mix(crc, b), 8) }

  function CrcLoop(crc: register, data: seq<byte>): register { Fold(AbsorbByte, crc, data) }

  /** The register's two bytes, low byte first. */
  function LittleEndian(crc: register): seq<byte> {
    [(crc % 256) as byte, (crc / 256) as byte]
  }

  function Crc16(data: seq<byte>): seq<byte> {
    LittleEndian(CrcLoop(INITIAL_CRC, data))
  }

  /** The source's nested loops, byte by byte and bit by bit. */
  method Crc16Modbus(data: seq<byte>) returns (check: seq<byte>)
    ensures check == Crc16(data)
  {
    hide Shift, Mix;
    var crc: register := INITIAL_CRC;
    for i := 0 to |data|
      invariant CrcLoop(crc, data[i..]) == CrcLoop(INITIAL_CRC, data)
    {
      crc := Mix(crc, data[i]);
      ghost var entered := crc;
      for turn := 0 to 8
        invariant Iterate(Shift, crc, 8 - turn) == Iterate(Shift, entered, 8)
      {
        crc := Shift(crc);
      }
      assert data[i..][1..] == data[i + 1..];
    }
    check := [(crc % 256) as byte, (crc / 256) as byte];
  }

  // ---------- Appending and checking ----------

  function WithChecksum(checksum: Checksum, data: seq<byte>): seq<byte> {
    data + checksum(data)
  }

  predicate HasChecksum(checksum: Checksum, data: seq<byte>) {
    var size := |checksum([])|;
    |data| >= size && WithChecksum(checksum, data[..|data| - size]) == data
  }

  /** The check accepts what appending made, and nothing else, for every fixed-width checksum. */
  lemma AppendedIsExactlyWhatPasses(checksum: Checksum, data: seq<byte>)
    requires forall d :: |checksum(d)| == |checksum([])|
    ensures HasChecksum(checksum, data) <==> exists body :: data == WithChecksum(checksum, body)
  {
    if HasChecksum(checksum, data) {
      assert data == WithChecksum(checksum, data[..|data| - |checksum([])|]);
    }
    forall body | data == WithChecksum(checksum, body) ensures HasChecksum(checksum, data) {
      assert data[..|data| - |checksum([])|] == body;
    }
  }

  // ---------- Bits of a word, least significant bit of each byte first ----------

  predicate BitOf(b: byte, i: nat) requires i < 8 { Drop(b as nat, i) % 2 == 1 }

  predicate Bit(word: seq<byte>, k: nat) requires k < 8 * |word| { BitOf(word[k / 8], k % 8) }

  function Bits(word: seq<byte>): seq<bool> {
    seq(8 * |word|, k requires 0 <= k < 8 * |word| => Bit(word, k))
  }

  lemma BitsOfFirstByte(word: seq<byte>)
    requires word != []
    ensures Bits(word) == Bits(word[..1]) + Bits(word[1..])
  {
    forall k: nat | k < 8 * |word| ensures Bits(word)[k] == (Bits(word[..1]) + Bits(word[1..]))[k] {
      if k >= 8 {
        assert k / 8 == (k - 8) / 8 + 1 && k % 8 == (k - 8) % 8;
      }
    }
  }

  lemma {:induction false} BitsDetermineNumber(a: nat, b: nat, n: nat)
    requires a < Pow2(n) && b < Pow2(n)
    requires forall i: nat :: i < n ==> Drop(a, i) % 2 == Drop(b, i) % 2
    ensures a == b
    decreases n
  {
    if n > 0 {
      forall i: nat | i < n - 1 ensures Drop(a / 2, i) % 2 == Drop(b / 2, i) % 2 {
        assert Drop(a, i + 1) % 2 == Drop(b, i + 1) % 2;
      }
      BitsDetermineNumber(a / 2, b / 2, n - 1);
      assert Drop(a, 0) % 2 == Drop(b, 0) % 2;
    }
  }

  lemma BitsDetermineWord(w: seq<byte>, v: seq<byte>)
    requires |w| == |v|
    requires Bits(w) == Bits(v)
    ensures w == v
  {
    forall j | 0 <= j < |w| ensures w[j] == v[j] {
      var a, b: nat := w[j] as nat, v[j] as nat;
      forall i: nat | i < 8 ensures Drop(a, i) % 2 == Drop(b, i) % 2 {
        assert Bits(w)[8 * j + i] == Bit(w, 8 * j + i) && Bits(v)[8 * j + i] == Bit(v, 8 * j + i);
        assert (8 * j + i) / 8 == j && (8 * j + i) % 8 == i;
      }
      Powers();
      BitsDetermineNumber(a, b, 8);
    }
  }
}
