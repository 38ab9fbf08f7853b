/**
 The CRC of an OTA record as the remainder of a division of polynomials over two elements, with
 the bits of a number as coefficients, and what follows: no two sequence numbers share one.
 */
module OtaCrcs {
  import opened Bytes
  import opened Flash

  /** The generator of CRC-32, lowest power last, and the 1 of its highest power behind it. */
  const GENERATOR: nat := 0x1_DB71_0641

  /** The product of a polynomial and the generator. */
  function Multiple(q: nat): nat {
    if q == 0 then 0 else XorOf(if q % 2 == 1 then GENERATOR else 0, 2 * Multiple(q / 2))
  }

  // ----- Exclusive or -----

  lemma {:induction false} XorZero(a: nat)
    ensures XorOf(a, 0) == a && XorOf(0, a) == a
  {
    if a > 0 { XorZero(a / 2); }
  }

  lemma {:induction false} XorSame(a: nat)
    ensures XorOf(a, a) == 0
  {
    if a > 0 { XorSame(a / 2); }
  }

  lemma {:induction false} XorCommutes(a: nat, b: nat)
    ensures XorOf(a, b) == XorOf(b, a)
    decreases a + b
  {
    if a > 0 || b > 0 { XorCommutes(a / 2, b / 2); }
  }

  lemma ByHalves(a: nat, b: nat)
    requires a % 2 == b % 2 && a / 2 == b / 2
    ensures a == b
  {
  }

  lemma {:induction false} XorAssociates(a: nat, b: nat, c: nat)
    ensures XorOf(XorOf(a, b), c) == XorOf(a, XorOf(b, c))
    decreases a + b + c
  {
    hide XorOf;
    XorHalves(a, b);
    XorHalves(b, c);
    XorHalves(XorOf(a, b), c);
    XorHalves(a, XorOf(b, c));
    if a > 0 || b > 0 || c > 0 {
      XorAssociates(a / 2, b / 2, c / 2);
      ByHalves(XorOf(XorOf(a, b), c), XorOf(a, XorOf(b, c)));
    } else {
      XorZero(0);
    }
  }

  lemma {:induction false} XorShifts(a: nat, b: nat, n: nat)
    ensures Pow2(n) * XorOf(a, b) == XorOf(Pow2(n) * a, Pow2(n) * b)
  {
    hide XorOf;
    if n > 0 {
      XorShifts(a, b, n - 1);
      var x, y := Pow2(n - 1) * a, Pow2(n - 1) * b;
      XorDoubles(x, y);
      assert Pow2(n) * a == 2 * x && Pow2(n) * b == 2 * y;
    }
  }

  lemma XorDoubles(a: nat, b: nat)
    ensures 2 * XorOf(a, b) == XorOf(2 * a, 2 * b)
  {
    XorHalves(2 * a, 2 * b);
  }

  /** (a ^ b) ^ (c ^ d) regrouped. */
  lemma XorFour(a: nat, b: nat, c: nat, d: nat)
    ensures XorOf(XorOf(a, b), XorOf(c, d)) == XorOf(XorOf(a, c), XorOf(b, d))
  {
    hide XorOf;
    XorAssociates(a, b, XorOf(c, d));
    XorAssociates(b, c, d);
    XorCommutes(b, c);
    XorAssociates(c, b, d);
    XorAssociates(a, c, XorOf(b, d));
  }

  // ----- Multiples of the generator -----

  lemma {:induction false} MultiplesAdd(p: nat, q: nat)
    ensures Multiple(XorOf(p, q)) == XorOf(Multiple(p), Multiple(q))
    decreases p + q
  {
    hide XorOf;
    if p == 0 || q == 0 {
      XorZero(p);
      XorZero(q);
      XorZero(Multiple(p));
      XorZero(Multiple(q));
    } else {
      MultiplesAdd(p / 2, q / 2);
      XorHalves(p, q);
      MultipleOf(p);
      MultipleOf(q);
      MultipleOf(XorOf(p, q));
      XorDoubles(Multiple(p / 2), Multiple(q / 2));
      XorFour(Lowest(p), 2 * Multiple(p / 2), Lowest(q), 2 * Multiple(q / 2));
      LowestAdd(p, q);
    }
  }

  function Lowest(q: nat): nat {
    if q % 2 == 1 then GENERATOR else 0
  }

  lemma LowestAdd(p: nat, q: nat)
    ensures XorOf(Lowest(p), Lowest(q)) == if p % 2 == q % 2 then 0 else GENERATOR
  {
    hide XorOf;
    XorZero(GENERATOR);
    XorZero(0);
    XorSame(GENERATOR);
  }

  lemma MultipleOf(q: nat)
    ensures Multiple(q) == XorOf(Lowest(q), 2 * Multiple(q / 2))
  {
    if q == 0 { XorZero(0); }
  }

  lemma {:induction false} MultiplesShift(q: nat, n: nat)
    ensures Multiple(Pow2(n) * q) == Pow2(n) * Multiple(q)
  {
    hide XorOf, Multiple;
    if n > 0 {
      MultiplesShift(q, n - 1);
      var x, m := Pow2(n - 1) * q, Pow2(n - 1) * Multiple(q);
      assert Pow2(n) * q == 2 * x && Pow2(n) * Multiple(q) == 2 * m;
      MultipleOf(2 * x);
      assert Lowest(2 * x) == 0 && 2 * x / 2 == x;
      XorZero(2 * m);
    }
  }

  /** A multiple has a bit of its own at the generator's highest power. */
  lemma {:induction false} MultiplesAreLong(q: nat)
    requires Multiple(q) < 0x1_0000_0000
    ensures q == 0
  {
    hide XorOf;
    if q > 0 {
      var high, low := 2 * Multiple(q / 2), Lowest(q);
      MultipleOf(q);
      if q / 2 == 0 {
        XorZero(low);
      } else {
        if Multiple(q / 2) < 0x1_0000_0000 { MultiplesAreLong(q / 2); }
        HighBitStays(low, high);
      }
    }
  }

  lemma {:induction false} Powers(m: nat, n: nat)
    ensures Pow2(m + n) == Pow2(m) * Pow2(n)
  {
    if m > 0 { Powers(m - 1, n); }
  }

  lemma PowersOfTwo()
    ensures Pow2(8) == 256 && Pow2(32) == 0x1_0000_0000 && Pow2(33) == 0x2_0000_0000
  {
    Powers(8, 8);
    Powers(16, 16);
    Powers(1, 32);
  }

  lemma HighBitStays(low: nat, high: nat)
    requires low < 0x2_0000_0000 <= high
    ensures XorOf(low, high) >= 0x2_0000_0000
  {
    hide XorOf;
    if XorOf(low, high) < 0x2_0000_0000 {
      PowersOfTwo();
      XorBound(low, XorOf(low, high), 33);
      XorAssociates(low, low, high);
      XorSame(low);
      XorZero(high);
    }
  }

  // ----- The loops -----

  /** One pass of the inner loop adds the generator to an odd number and halves the sum. */
  lemma OneBit(crc: nat)
    ensures 2 * CrcBits(crc, 1) == XorOf(crc, Multiple(crc % 2))
  {
    var next := XorOf(crc / 2, if crc % 2 == 1 then 0xEDB88320 else 0);
    assert CrcBits(crc, 1) == next;
    if crc % 2 == 1 {
      XorHalves(crc, GENERATOR);
      MultipleOf(1);
      XorZero(GENERATOR);
    } else {
      XorZero(crc);
      XorZero(crc / 2);
    }
  }

  lemma BitsStep(crc: nat, bits: nat)
    requires bits > 0
    ensures CrcBits(crc, bits) == CrcBits(CrcBits(crc, 1), bits - 1)
  {
    hide XorOf;
  }

  lemma {:induction false} BitsDivide(crc: nat, bits: nat) returns (q: nat)
    ensures Pow2(bits) * CrcBits(crc, bits) == XorOf(crc, Multiple(q))
    decreases bits
  {
    hide XorOf, CrcBits, Multiple;
    if bits == 0 {
      q := 0;
      assert CrcBits(crc, 0) == crc by { NoBits(crc); }
      assert Multiple(0) == 0 by { MultipleOfNone(); }
      XorZero(crc);
    } else {
      var next, low := CrcBits(crc, 1), crc % 2;
      OneBit(crc);
      BitsStep(crc, bits);
      var more := BitsDivide(next, bits - 1);
      XorDoubles(next, Multiple(more));
      assert Pow2(bits) * CrcBits(crc, bits) == 2 * (Pow2(bits - 1) * CrcBits(next, bits - 1));
      q := Plus(crc, low, 2 * more, 2 * Multiple(more)) by { MultipleTwice(more); }
    }
  }

  lemma NoBits(crc: nat)
    ensures CrcBits(crc, 0) == crc
  {
  }

  lemma MultipleOfNone()
    ensures Multiple(0) == 0
  {
  }

  lemma MultipleTwice(q: nat)
    ensures Multiple(2 * q) == 2 * Multiple(q)
  {
    MultiplesShift(q, 1);
    assert Pow2(1) == 2 by { assert Pow2(0) == 1; }
  }

  /** Adding two multiples one after the other. */
  lemma Plus(x: nat, p: nat, q: nat, m: nat) returns (sum: nat)
    requires Multiple(q) == m
    ensures XorOf(XorOf(x, Multiple(p)), m) == XorOf(x, Multiple(sum))
  {
    hide XorOf, Multiple;
    sum := XorOf(p, q);
    MultiplesAdd(p, q);
    XorAssociates(x, Multiple(p), m);
  }

  // ----- The CRC of a sequence number -----

  /** The number whose bytes are `data`, lowest first. */
  function Value(data: seq<byte>): nat {
    if data == [] then 0 else data[0] + 256 * Value(data[1..])
  }

  lemma {:induction false} LowByteApart(a: nat, more: nat, n: nat)
    requires a < Pow2(n)
    ensures XorOf(a, Pow2(n) * more) == a + Pow2(n) * more
    decreases n
  {
    if n == 0 {
      XorZero(more);
    } else {
      var p := Pow2(n - 1);
      assert Pow2(n) * more == 2 * (p * more);
      LowByteApart(a / 2, more, n - 1);
      XorHalves(a, 2 * (p * more));
    }
  }

  /** The bytes of a sequence number divided by the generator: the remainder comes out 8 bits a
      byte further up. */
  lemma {:induction false} BytesDivide(crc: nat, data: seq<byte>) returns (q: nat)
    ensures Pow2(8 * |data|) * CrcBytes(crc, data) == XorOf(XorOf(crc, Value(data)), Multiple(q))
    decreases |data|
  {
    hide XorOf, CrcBits, Multiple, Pow2;
    if data == [] {
      q := 0;
      MultipleOfNone();
      XorZero(crc);
      assert Pow2(0) == 1 by { PowerOfNone(); }
    } else {
      var rest, added := data[1..], XorOf(crc, data[0]);
      var next := CrcBits(added, 8);
      var p := BitsDivide(added, 8);
      var more := BytesDivide(next, rest);
      q := Combine(crc, data[0], Value(rest), next, p, more);
      Powers(8, 8 * |rest|);
      var last := CrcBytes(crc, data);
      assert last == CrcBytes(next, rest);
      assert Pow2(8) * Pow2(8 * |rest|) * last == Pow2(8) * (Pow2(8 * |rest|) * last);
      PowersOfTwo();
    }
  }

  lemma PowerOfNone()
    ensures Pow2(0) == 1
  {
  }

  lemma Combine(crc: nat, first: byte, rest: nat, next: nat, p: nat, more: nat) returns (q: nat)
    requires Pow2(8) * next == XorOf(XorOf(crc, first), Multiple(p))
    ensures Pow2(8) * XorOf(XorOf(next, rest), Multiple(more)) == XorOf(XorOf(crc, first + 256 * rest), Multiple(q))
  {
    hide XorOf, Multiple, Pow2;
    PowersOfTwo();
    var up, m := 256 * rest, 256 * Multiple(more);
    XorShifts(XorOf(next, rest), Multiple(more), 8);
    XorShifts(next, rest, 8);
    MultiplesShift(more, 8);
    // ((crc ^ first) ^ p) ^ up ^ more
    var x := XorOf(crc, first);
    XorAssociates(x, Multiple(p), up);
    XorCommutes(Multiple(p), up);
    XorAssociates(x, up, Multiple(p));
    XorAssociates(crc, first, up);
    LowByteApart(first, rest, 8);
    q := Plus(XorOf(x, up), p, 256 * more, m);
  }

  lemma {:induction false} BitsBound(crc: nat, bits: nat)
    requires crc <= 0xFFFF_FFFF
    ensures CrcBits(crc, bits) <= 0xFFFF_FFFF
    decreases bits
  {
    hide XorOf, Pow2;
    if bits > 0 {
      PowersOfTwo();
      var added := if crc % 2 == 1 then 0xEDB88320 else 0;
      XorBound(crc / 2, added, 32);
      BitsBound(XorOf(crc / 2, added), bits - 1);
    }
  }

  lemma {:induction false} BytesBound(crc: nat, data: seq<byte>)
    requires crc <= 0xFFFF_FFFF
    ensures CrcBytes(crc, data) <= 0xFFFF_FFFF
    decreases |data|
  {
    hide XorOf, Pow2, CrcBits;
    if data != [] {
      PowersOfTwo();
      XorBound(crc, data[0], 32);
      BitsBound(XorOf(crc, data[0]), 8);
      BytesBound(CrcBits(XorOf(crc, data[0]), 8), data[1..]);
    }
  }

  /** The complement of the CRC is the remainder of the sequence number. */
  lemma CrcIsRemainder(sequence: nat) returns (q: nat)
    requires sequence <= 0xFFFF_FFFF
    ensures 0x1_0000_0000 * (0xFFFF_FFFF - OtaCrc(sequence)) == XorOf(sequence, Multiple(q))
  {
    hide XorOf, CrcBytes, Multiple, Pow2;
    var data := Le32(sequence);
    q := BytesDivide(0, data);
    PowersOfTwo();
    ValueOfWord(sequence);
    XorZero(sequence);
    BytesBound(0, data);
    assert Pow2(8 * |data|) == 0x1_0000_0000;
  }

  lemma ValueOfWord(n: nat)
    requires n <= 0xFFFF_FFFF
    ensures Value(Le32(n)) == n
  {
    var b := Le32(n);
    assert b[1..] == [b[1], b[2], b[3]] && b[1..][1..] == [b[2], b[3]] && b[1..][1..][1..] == [b[3]];
    assert Value([b[3]]) == b[3] by { assert [b[3]][1..] == []; }
    assert Value([b[2], b[3]]) == (b[2] as int) + 256 * (b[3] as int);
    assert Value([b[1], b[2], b[3]]) == (b[1] as int) + 256 * Value([b[2], b[3]]);
    Digits(n);
  }

  lemma XorCancels(a: nat, b: nat)
    requires XorOf(a, b) == 0
    ensures a == b
  {
    hide XorOf;
    XorAssociates(a, b, b);
    XorSame(b);
    XorZero(a);
    XorZero(b);
  }

  /** The CRC tells any two sequence numbers apart. */
  lemma CrcDistinguishes(s: nat, t: nat)
    requires s <= 0xFFFF_FFFF && t <= 0xFFFF_FFFF && OtaCrc(s) == OtaCrc(t)
    ensures s == t
  {
    hide XorOf, Multiple, OtaCrc;
    var p := CrcIsRemainder(s);
    var q := CrcIsRemainder(t);
    XorSame(XorOf(s, Multiple(p)));
    XorFour(s, Multiple(p), t, Multiple(q));
    MultiplesAdd(p, q);
    XorCancels(XorOf(s, t), Multiple(XorOf(p, q)));
    PowersOfTwo();
    XorBound(s, t, 32);
    MultiplesAreLong(XorOf(p, q));
    MultipleOfNone();
    XorCancels(s, t);
  }
}
