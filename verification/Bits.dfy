/** The bit test for powers of two. */
module Bits {

  /** The one bit that is `k` places from the right; nothing is left of it after 64 shifts. */
  function Bit(k: nat): bv64 {
    if k == 0 then 1 else Bit(k - 1) << 1
  }

  predicate IsPowerOfTwo(x: bv64) {
    0 == x & (x - 1)
  }

  lemma Halve(x: bv64)
    requires x & 1 == 0 && x != 0
    ensures x & (x - 1) == 0 <==> (x >> 1) & ((x >> 1) - 1) == 0
    ensures (x >> 1) << 1 == x && x >> 1 != 0
  {
  }

  lemma Smaller(x: bv64)
    requires x != 0
    ensures x >> 1 < x
  {
  }

  lemma Odd(x: bv64)
    requires x & 1 == 1
    ensures x & (x - 1) == 0 <==> x == 1
  {
  }

  lemma Double(x: bv64)
    ensures x & (x - 1) == 0 ==> (x << 1) & ((x << 1) - 1) == 0
  {
  }

  lemma {:induction false} BitsPass(k: nat)
    ensures IsPowerOfTwo(Bit(k))
  {
    if k > 0 {
      BitsPass(k - 1);
      Double(Bit(k - 1));
    }
  }

  lemma {:induction false} PassingIsBit(x: bv64) returns (k: nat)
    requires IsPowerOfTwo(x) && x != 0
    ensures x == Bit(k)
    decreases x
  {
    if x & 1 == 1 {
      Odd(x);
      k := 0;
    } else {
      Halve(x);
      Smaller(x);
      k := PassingIsBit(x >> 1);
      k := k + 1;
    }
  }

  /** The test, whose subtraction wraps around at zero, holds of zero and of the powers of two and of nothing else. */
  lemma PowerOfTwoTest(x: bv64)
    ensures IsPowerOfTwo(x) <==> x == 0 || exists k :: x == Bit(k)
  {
    if IsPowerOfTwo(x) && x != 0 { var k := PassingIsBit(x); }
    if k :| x == Bit(k) { BitsPass(k); }
  }

  // ---------- Words and numbers

  /** The test on numbers, as the responder applies it to distances. */
  predicate IsPowerOfTwoNumber(n: nat) {
    n <= 1 || (n % 2 == 0 && IsPowerOfTwoNumber(n / 2))
  }

  function Pow2(k: nat): nat {
    if k == 0 then 1 else 2 * Pow2(k - 1)
  }

  lemma {:induction false} Pow2Passes(k: nat)
    ensures Pow2(k) >= 1 && IsPowerOfTwoNumber(Pow2(k))
  {
    if k > 0 { Pow2Passes(k - 1); }
  }

  lemma {:induction false} PassingIsPow2(n: nat) returns (k: nat)
    requires IsPowerOfTwoNumber(n) && n > 0
    ensures n == Pow2(k)
  {
    if n == 1 {
      k := 0;
    } else {
      var j := PassingIsPow2(n / 2);
      k := j + 1;
    }
  }

  ghost predicate ZeroOrPowerOfTwo(n: nat) {
    n == 0 || exists k :: n == Pow2(k)
  }

  /** On numbers, too, the test holds of zero and of the powers of two and of nothing else. */
  lemma NumbersThatPass(n: nat)
    ensures IsPowerOfTwoNumber(n) <==> ZeroOrPowerOfTwo(n)
  {
    if IsPowerOfTwoNumber(n) && n > 0 { var k := PassingIsPow2(n); }
    if k :| n == Pow2(k) { Pow2Passes(k); }
  }

  /** The number a word stands for. */
  function Number(x: bv64): nat
    decreases x
  {
    if x == 0 then 0
    else
      Smaller(x);
      2 * Number(x >> 1) + (if x & 1 == 1 then 1 else 0)
  }

  lemma LastBit(x: bv64)
    ensures x & 1 == 0 || x & 1 == 1
    ensures x >> 1 == 0 <==> x == 0 || x == 1
  {
  }

  lemma {:induction false} NumberIsZero(x: bv64)
    ensures Number(x) == 0 <==> x == 0
    decreases x
  {
    if x != 0 {
      Smaller(x);
      LastBit(x);
      NumberIsZero(x >> 1);
    }
  }

  lemma NumberStep(x: bv64)
    requires x != 0
    ensures Number(x) == 2 * Number(x >> 1) + (if x & 1 == 1 then 1 else 0)
  {
  }

  lemma ZeroTest()
    ensures IsPowerOfTwo(0) && Number(0) == 0
  {
  }

  /** On 64-bit words the bit test is the test on the numbers they stand for. */
  lemma {:induction false} TestOnNumbers(x: bv64)
    ensures IsPowerOfTwo(x) <==> IsPowerOfTwoNumber(Number(x))
    decreases x
  {
    hide Number;
    if x == 0 {
      ZeroTest();
    } else {
      Smaller(x);
      LastBit(x);
      NumberStep(x);
      NumberIsZero(x >> 1);
      if x & 1 == 1 {
        Odd(x);
      } else {
        Halve(x);
        TestOnNumbers(x >> 1);
      }
    }
  }
}
