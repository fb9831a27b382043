/** Bitwise operations on naturals, bit by bit, and what they come to on aligned operands. */
module Bits {
  function Pow2(n: nat): (r: nat)
    ensures r >= 1
  {
    if n == 0 then 1 else 2 * Pow2(n - 1)
  }

  lemma {:induction false} Pow2Adds(m: nat, n: nat)
    ensures Pow2(m + n) == Pow2(m) * Pow2(n)
  {
    if m > 0 {
      Pow2Adds(m - 1, n);
    }
  }

  /** The powers at the widths of machine words. */
  lemma Pow2Widths()
    ensures Pow2(16) == 0x1_0000
    ensures Pow2(31) == 0x8000_0000 && Pow2(32) == 0x1_0000_0000
    ensures Pow2(63) == 0x8000_0000_0000_0000 && Pow2(64) == 0x1_0000_0000_0000_0000
  {
    assert Pow2(4) == 16;
    Pow2Adds(4, 4);
    Pow2Adds(8, 8);
    Pow2Adds(16, 16);
    Pow2Adds(32, 32);
    assert Pow2(32) == 2 * Pow2(31) && Pow2(64) == 2 * Pow2(63);
  }

  function BitAnd(a: nat, b: nat): (r: nat)
    ensures r <= b
  {
    if a == 0 || b == 0 then 0
    else (if a % 2 == 1 && b % 2 == 1 then 1 else 0) + 2 * BitAnd(a / 2, b / 2)
  }

  function BitOr(a: nat, b: nat): (r: nat)
    ensures a <= r && b <= r
    decreases a + b
  {
    if a == 0 && b == 0 then 0
    else (if a % 2 == 1 || b % 2 == 1 then 1 else 0) + 2 * BitOr(a / 2, b / 2)
  }

  function BitXor(a: nat, b: nat): nat
    decreases a + b
  {
    if a == 0 && b == 0 then 0
    else (if a % 2 != b % 2 then 1 else 0) + 2 * BitXor(a / 2, b / 2)
  }

  lemma {:induction false} OrZero(a: nat)
    ensures BitOr(a, 0) == a
  {
    if a > 0 {
      OrZero(a / 2);
    }
  }

  /** Or-ing bits below a shifted number is adding them. */
  lemma {:induction false} OrBelow(high: nat, low: nat, n: nat)
    requires low < Pow2(n)
    ensures BitOr(high * Pow2(n), low) == high * Pow2(n) + low
  {
    hide BitOr;
    if n == 0 {
      OrZero(high);
    } else {
      OrBelow(high, low / 2, n - 1);
      var half := high * Pow2(n - 1);
      TwiceProduct(high, Pow2(n - 1));
      OrEven(half, low);
    }
  }

  lemma TwiceProduct(x: nat, y: nat)
    ensures x * (2 * y) == 2 * (x * y)
  {
  }

  lemma OrEven(half: nat, b: nat)
    ensures BitOr(2 * half, b) == b % 2 + 2 * BitOr(half, b / 2)
  {
    HalvesOfEven(half);
  }

  lemma HalvesOfEven(x: nat)
    ensures (2 * x) % 2 == 0 && (2 * x) / 2 == x
  {
  }

  /** Or-ing anything below into a run of ones leaves it. */
  lemma {:induction false} OrOnes(x: nat, n: nat)
    requires x < Pow2(n)
    ensures BitOr(Pow2(n) - 1, x) == Pow2(n) - 1
  {
    if n > 0 {
      OrOnes(x / 2, n - 1);
      assert (Pow2(n) - 1) % 2 == 1 && (Pow2(n) - 1) / 2 == Pow2(n - 1) - 1;
    }
  }

  /** Flipping the top bit adds or takes away its weight. */
  lemma {:induction false} XorTop(x: nat, n: nat)
    requires x < Pow2(n + 1)
    ensures BitXor(x, Pow2(n)) == if x < Pow2(n) then x + Pow2(n) else x - Pow2(n)
  {
    if n == 0 {
      assert Pow2(1) == 2;
      assert BitXor(0, 0) == 0 && BitXor(0, 1) == 1 && BitXor(1, 1) == 0;
    } else {
      XorTop(x / 2, n - 1);
      HalvesOfEven(Pow2(n - 1));
    }
  }

  lemma OnesHalve(half: nat)
    ensures (2 * half + 1) % 2 == 1 && (2 * half + 1) / 2 == half
  {
  }

  lemma XorNothing()
    ensures BitXor(0, 0) == 0
  {
  }

  lemma XorStep(a: nat, b: nat)
    ensures BitXor(a, b) == (if a % 2 != b % 2 then 1 else 0) + 2 * BitXor(a / 2, b / 2)
  {
  }

  /** Flipping every bit subtracts from the greatest number of that width. */
  lemma {:induction false} XorOnes(x: nat, n: nat)
    requires x < Pow2(n)
    ensures BitXor(x, Pow2(n) - 1) == Pow2(n) - 1 - x
  {
    hide BitXor;
    if n == 0 {
      XorNothing();
    } else {
      var half := Pow2(n - 1) - 1;
      XorOnes(x / 2, n - 1);
      OnesHalve(half);
      XorStep(x, 2 * half + 1);
    }
  }
}
