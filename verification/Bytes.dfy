/** Octets as integers, and their exclusive or. */
module Bytes {
  type byte = b: int | 0 <= b < 256

  function Pow2(n: nat): (r: nat)
    ensures r > 0
  {
    if n == 0 then 1 else 2 * Pow2(n - 1)
  }

  /** The exclusive or of two numbers, bit by bit. */
  function XorOf(a: nat, b: nat): nat
    decreases a + b
  {
    if a == 0 && b == 0 then 0 else (if a % 2 == b % 2 then 0 else 1) + 2 * XorOf(a / 2, b / 2)
  }

  lemma {:induction false} XorBound(a: nat, b: nat, n: nat)
    requires a < Pow2(n) && b < Pow2(n)
    ensures XorOf(a, b) < Pow2(n)
  {
    if n > 0 { XorBound(a / 2, b / 2, n - 1); }
  }

  function Xor(a: byte, b: byte): byte {
    XorBound(a, b, 8);
    assert Pow2(8) == 256;
    XorOf(a, b)
  }

  lemma HalvesOf(low: nat, high: nat)
    requires low < 2
    ensures (low + 2 * high) % 2 == low && (low + 2 * high) / 2 == high
  {
  }

  lemma {:induction false} XorOfTwice(a: nat, b: nat)
    ensures XorOf(XorOf(a, b), b) == a
    decreases a + b
  {
    if a != 0 || b != 0 {
      var low, high := if a % 2 == b % 2 then 0 else 1, XorOf(a / 2, b / 2);
      HalvesOf(low, high);
      XorOfTwice(a / 2, b / 2);
    }
  }

  lemma XorTwice(a: byte, b: byte)
    ensures Xor(Xor(a, b), b) == a
  {
    XorOfTwice(a, b);
  }

  // ----- Bits -----

  function Bit(n: nat, k: nat): nat
    decreases k
  {
    if k == 0 then n % 2 else Bit(n / 2, k - 1)
  }

  /** Each bit of an exclusive or is the sum of the bits, without carry. */
  lemma {:induction false} XorBits(a: nat, b: nat, k: nat)
    ensures Bit(XorOf(a, b), k) == (Bit(a, k) + Bit(b, k)) % 2
    decreases k
  {
    XorHalves(a, b);
    hide XorOf;
    if k > 0 { XorBits(a / 2, b / 2, k - 1); }
  }

  lemma XorHalves(a: nat, b: nat)
    ensures XorOf(a, b) % 2 == (a % 2 + b % 2) % 2 && XorOf(a, b) / 2 == XorOf(a / 2, b / 2)
  {
    var low, high := if a % 2 == b % 2 then 0 else 1, XorOf(a / 2, b / 2);
    HalvesOf(low, high);
  }

  /** The bits determine a number. */
  lemma {:induction false} BitsDetermine(a: nat, b: nat, n: nat)
    requires a < Pow2(n) && b < Pow2(n) && forall k :: 0 <= k < n ==> Bit(a, k) == Bit(b, k)
    ensures a == b
  {
    if n > 0 {
      assert Bit(a, 0) == Bit(b, 0);
      forall k | 0 <= k < n - 1 ensures Bit(a / 2, k) == Bit(b / 2, k) { assert Bit(a, k + 1) == Bit(b, k + 1); }
      BitsDetermine(a / 2, b / 2, n - 1);
    }
  }
}
