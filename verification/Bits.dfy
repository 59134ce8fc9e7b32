/** Exclusive or on numbers. */
module Bits {

  /** Bitwise exclusive or, from the lowest bit up. */
  function Xor(a: nat, b: nat): nat
    decreases a + b
  {
    if a == 0 && b == 0 then 0 else (if a % 2 == b % 2 then 0 else 1) + 2 * Xor(a / 2, b / 2)
  }

  lemma {:induction false} XorZero(a: nat)
    ensures Xor(a, 0) == a
  {
    if a > 0 {
      XorZero(a / 2);
    }
  }

  lemma XorDouble(a: nat, b: nat)
    ensures Xor(2 * a, 2 * b) == 2 * Xor(a, b)
  {
  }

  /** One operand and the result determine the other. */
  lemma {:induction false} XorInjective(a: nat, b: nat, a': nat, b': nat)
    requires Xor(a, b) == Xor(a', b') && (a == a' || b == b')
    ensures a == a' && b == b'
    decreases a + b + a' + b'
  {
    if a + b + a' + b' > 0 {
      XorHalves(a, b);
      XorHalves(a', b');
      XorInjective(a / 2, b / 2, a' / 2, b' / 2);
    }
  }

  lemma XorHalves(a: nat, b: nat)
    ensures Xor(a, b) % 2 == (if a % 2 == b % 2 then 0 else 1) && Xor(a, b) / 2 == Xor(a / 2, b / 2)
  {
  }

  function PowerOfTwo(k: nat): (n: nat)
    ensures n >= 1
  {
    if k == 0 then 1 else 2 * PowerOfTwo(k - 1)
  }

  /** Numbers of `k` bits have an exclusive or of `k` bits. */
  lemma {:induction false} XorBound(a: nat, b: nat, k: nat)
    requires a < PowerOfTwo(k) && b < PowerOfTwo(k)
    ensures Xor(a, b) < PowerOfTwo(k)
  {
    if k > 0 {
      XorBound(a / 2, b / 2, k - 1);
      XorHalves(a, b);
    }
  }
}
