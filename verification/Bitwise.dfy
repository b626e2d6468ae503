/** Bytes, Int arithmetic, and the bitwise operators on the non-negative integers the sources apply them to. */
module Bitwise {

  newtype byte = x: int | 0 <= x < 256

  /** Reduction to a 32-bit signed Int. */
  function ToInt(x: int): int {
    var m := x % 0x1_0000_0000;
    if m >= 0x8000_0000 then m - 0x1_0000_0000 else m
  }

  /** Exclusive or, bit by bit from the lowest. */
  function Xor(a: nat, b: nat): nat
    decreases a + b
  {
    if a == 0 && b == 0 then 0
    else 2 * Xor(a / 2, b / 2) + (if a % 2 != b % 2 then 1 else 0)
  }

  function Pow2(n: nat): (p: nat)
    ensures p >= 1
  {
    if n == 0 then 1 else 2 * Pow2(n - 1)
  }

  /** Logical shift right by n. */
  function Drop(a: nat, n: nat): nat
    decreases n
  {
    if n == 0 then a else Drop(a / 2, n - 1)
  }

  lemma {:induction false} XorCommutes(a: nat, b: nat)
    ensures Xor(a, b) == Xor(b, a)
    decreases a + b
  {
    if a != 0 || b != 0 {
      XorCommutes(a / 2, b / 2);
    }
  }

  lemma {:induction false} XorAssociates(a: nat, b: nat, c: nat)
    ensures Xor(Xor(a, b), c) == Xor(a, Xor(b, c))
    decreases a + b + c
  {
    if a != 0 || b != 0 || c != 0 {
      XorAssociates(a / 2, b / 2, c / 2);
    }
  }

  lemma {:induction false} XorZero(a: nat)
    ensures Xor(a, 0) == a
  {
    if a != 0 {
      XorZero(a / 2);
    }
  }

  lemma {:induction false} XorSelf(a: nat)
    ensures Xor(a, a) == 0
  {
    if a != 0 {
      XorSelf(a / 2);
    }
  }

  /** Mixing in the same number twice takes it out again. */
  lemma XorCancels(a: nat, c: nat)
    ensures Xor(Xor(a, c), c) == a
  {
    XorAssociates(a, c, c);
    XorSelf(c);
    XorZero(a);
  }

  lemma {:induction false} XorFits(a: nat, b: nat, n: nat)
    requires a < Pow2(n) && b < Pow2(n)
    ensures Xor(a, b) < Pow2(n)
    decreases n
  {
    if n > 0 {
      XorFits(a / 2, b / 2, n - 1);
    }
  }

  /** The highest bit of the longer operand survives. */
  lemma {:induction false} XorKeepsTopBit(a: nat, b: nat, n: nat)
    requires a < Pow2(n) <= b
    ensures Xor(a, b) >= Pow2(n)
    decreases n
  {
    if n == 0 {
      XorCommutes(a, b);
      XorZero(b);
    } else {
      XorKeepsTopBit(a / 2, b / 2, n - 1);
    }
  }

  lemma {:induction false} DropOfXor(a: nat, b: nat, n: nat)
    ensures Drop(Xor(a, b), n) == Xor(Drop(a, n), Drop(b, n))
    decreases n
  {
    if n > 0 {
      DropOfXor(a / 2, b / 2, n - 1);
    }
  }

  lemma {:induction false} DropBounds(a: nat, n: nat, m: nat)
    ensures a < Pow2(n + m) <==> Drop(a, n) < Pow2(m)
    decreases n
  {
    if n > 0 {
      DropBounds(a / 2, n - 1, m);
    }
  }

  lemma Powers()
    ensures Pow2(8) == 0x100 && Pow2(15) == 0x8000 && Pow2(16) == 0x1_0000
  {
    assert Pow2(4) == 0x10;
    assert Pow2(8) == 0x100;
    assert Pow2(12) == 0x1000;
    assert Pow2(15) == 0x8000;
  }

  lemma XorOfEven(a: nat, b: nat)
    ensures Xor(2 * a, b) == 2 * Xor(a, b / 2) + b % 2
  {}

  lemma {:induction false} XorOfSeparate(high: nat, low: nat, n: nat)
    requires low < Pow2(n)
    ensures Xor(high * Pow2(n), low) == high * Pow2(n) + low
    decreases n
  {
    hide Xor;
    if n == 0 {
      assert low == 0;
      XorZero(high);
    } else {
      var rest := high * Pow2(n - 1);
      assert high * Pow2(n) == high * (2 * Pow2(n - 1)) == 2 * rest;
      XorOfSeparate(high, low / 2, n - 1);
      XorOfEven(rest, low);
    }
  }

  // ---------- And ----------

  function And(a: nat, b: nat): nat
    decreases a + b
  {
    if a == 0 && b == 0 then 0
    else 2 * And(a / 2, b / 2) + (if a % 2 == 1 && b % 2 == 1 then 1 else 0)
  }

  lemma {:induction false} AndFits(a: nat, b: nat, n: nat)
    requires a < Pow2(n) && b < Pow2(n)
    ensures And(a, b) < Pow2(n)
    decreases n
  {
    if n > 0 {
      AndFits(a / 2, b / 2, n - 1);
    }
  }

  lemma {:induction false} BitOfAnd(a: nat, b: nat, k: nat)
    ensures Drop(And(a, b), k) % 2 == 1 <==> Drop(a, k) % 2 == 1 && Drop(b, k) % 2 == 1
    decreases k
  {
    if k > 0 {
      BitOfAnd(a / 2, b / 2, k - 1);
    }
  }

  function AndBytes(a: byte, b: byte): byte {
    Powers();
    AndFits(a as nat, b as nat, 8);
    And(a as nat, b as nat) as byte
  }
}
