/**
 Bitwise operators of C's unsigned integers on natural numbers.  A value of an unsigned type of
 width `w` is a number below `Pow2(w)`; bit 0 is the least significant one.
 */
module Bits {

  function Pow2(n: nat): (p: nat)
    ensures p > 0
  {
    if n == 0 then 1 else 2 * Pow2(n - 1)
  }

  /** Bit `t` of `x`. */
  predicate TestBit(x: nat, t: nat) {
    if t == 0 then x % 2 == 1 else TestBit(x / 2, t - 1)
  }

  function And(x: nat, y: nat): nat {
    if x == 0 || y == 0 then 0
    else 2 * And(x / 2, y / 2) + if x % 2 == 1 && y % 2 == 1 then 1 else 0
  }

  function Or(x: nat, y: nat): nat {
    if x == 0 then y else if y == 0 then x
    else 2 * Or(x / 2, y / 2) + if x % 2 == 1 || y % 2 == 1 then 1 else 0
  }

  /** `x >> r` */
  function Shr(x: nat, r: nat): nat {
    if r == 0 then x else Shr(x / 2, r - 1)
  }

  lemma {:induction false} ZeroBit(t: nat)
    ensures !TestBit(0, t)
  {
    if t > 0 { ZeroBit(t - 1); }
  }

  lemma {:induction false} AndBit(x: nat, y: nat, t: nat)
    ensures TestBit(And(x, y), t) <==> TestBit(x, t) && TestBit(y, t)
  {
    if x == 0 || y == 0 {
      ZeroBit(t);
    } else if t > 0 {
      AndBit(x / 2, y / 2, t - 1);
    }
  }

  /** A number is determined by its bits. */
  lemma {:induction false} SameBits(x: nat, y: nat, w: nat)
    requires x < Pow2(w) && y < Pow2(w)
    requires forall t: nat :: t < w ==> TestBit(x, t) == TestBit(y, t)
    ensures x == y
  {
    if w > 0 {
      forall t: nat | t < w - 1
        ensures TestBit(x / 2, t) == TestBit(y / 2, t)
      {
        assert TestBit(x, t + 1) == TestBit(y, t + 1);
      }
      SameBits(x / 2, y / 2, w - 1);
      assert TestBit(x, 0) == TestBit(y, 0);
    }
  }

  lemma {:induction false} AndBelow(x: nat, y: nat)
    ensures And(x, y) <= x
  {
    if x != 0 && y != 0 { AndBelow(x / 2, y / 2); }
  }

  /** ANDing with all ones of a width keeps a number of that width. */
  lemma {:induction false} AndOnes(x: nat, w: nat)
    requires x < Pow2(w)
    ensures And(x, Pow2(w) - 1) == x
  {
    if w > 0 {
      AndOnes(x / 2, w - 1);
      assert (Pow2(w) - 1) / 2 == Pow2(w - 1) - 1;
    }
  }

  /** The two halves of a word are ANDed independently of one another. */
  lemma {:induction false} AndConcat2(a: nat, b: nat, c: nat, d: nat)
    requires b < 2 && d < 2
    ensures And(2 * a + b, 2 * c + d) == 2 * And(a, c) + And(b, d)
  {
    assert And(b, d) == if b == 1 && d == 1 then 1 else 0;
  }

  lemma {:induction false} AndConcat4(a: nat, b: nat, c: nat, d: nat)
    requires b < 4 && d < 4
    ensures And(4 * a + b, 4 * c + d) == 4 * And(a, c) + And(b, d)
  {
    hide And;
    AndConcat2(2 * a + b / 2, b % 2, 2 * c + d / 2, d % 2);
    AndConcat2(a, b / 2, c, d / 2);
    AndConcat2(b / 2, b % 2, d / 2, d % 2);
  }

  lemma {:induction false} AndConcat16(a: nat, b: nat, c: nat, d: nat)
    requires b < 16 && d < 16
    ensures And(16 * a + b, 16 * c + d) == 16 * And(a, c) + And(b, d)
  {
    hide And;
    AndConcat4(4 * a + b / 4, b % 4, 4 * c + d / 4, d % 4);
    AndConcat4(a, b / 4, c, d / 4);
    AndConcat4(b / 4, b % 4, d / 4, d % 4);
  }

  lemma {:induction false} AndConcat256(a: nat, b: nat, c: nat, d: nat)
    requires b < 256 && d < 256
    ensures And(256 * a + b, 256 * c + d) == 256 * And(a, c) + And(b, d)
  {
    hide And;
    AndConcat16(16 * a + b / 16, b % 16, 16 * c + d / 16, d % 16);
    AndConcat16(a, b / 16, c, d / 16);
    AndConcat16(b / 16, b % 16, d / 16, d % 16);
  }

  /** An odd mask keeps the lowest bit. */
  lemma {:induction false} AndOdd(a: nat, b: nat, m: nat)
    requires b < 2
    ensures And(2 * a + b, 2 * m + 1) == 2 * And(a, m) + b
    ensures And(a, 0) == 0
  {
    AndConcat2(a, b, m, 1);
  }

  lemma {:induction false} AndLowByte(x: nat)
    ensures And(x, 0xff) == x % 256
  {
    AndConcat256(x / 256, x % 256, 0, 0xff);
    assert Pow2(8) == 256;
    AndOnes(x % 256, 8);
  }

  /** The `i` least significant bits of `x` are zero. */
  predicate LowZeros(x: nat, i: nat) {
    i == 0 || (x % 2 == 0 && LowZeros(x / 2, i - 1))
  }

  /** Setting a bit below which `x` has only zeros is an addition. */
  lemma {:induction false} OrSetsBit(x: nat, i: nat)
    requires LowZeros(x, i + 1)
    ensures Or(x, Pow2(i)) == x + Pow2(i)
  {
    if i == 0 {
      assert Or(x / 2, 0) == x / 2;
    } else {
      OrSetsBit(x / 2, i - 1);
    }
  }

  /** The number of width `w` whose `c` most significant bits are the ones set. */
  function HighOnes(c: nat, w: nat): nat
    requires c <= w
  {
    Pow2Order(w - c, w);
    Pow2(w) - Pow2(w - c)
  }

  lemma {:induction false} Pow2Order(a: nat, b: nat)
    requires a <= b
    ensures Pow2(a) <= Pow2(b)
  {
    if a < b { Pow2Order(a, b - 1); }
  }

  lemma {:induction false} HighOnesLowZeros(c: nat, w: nat)
    requires c <= w
    ensures LowZeros(HighOnes(c, w), w - c)
  {
    if c < w {
      Pow2Order(w - c, w);
      assert HighOnes(c, w) == 2 * HighOnes(c, w - 1);
      HighOnesLowZeros(c, w - 1);
    }
  }

  lemma {:induction false} HighOnesBit(c: nat, w: nat, t: nat)
    requires c <= w && t < w
    ensures TestBit(HighOnes(c, w), t) <==> t >= w - c
  {
    Pow2Order(w - c, w);
    if c < w {
      assert HighOnes(c, w) == 2 * HighOnes(c, w - 1);
      if t > 0 { HighOnesBit(c, w - 1, t - 1); }
    } else if t > 0 {
      assert HighOnes(w, w) / 2 == HighOnes(w - 1, w - 1);
      HighOnesBit(w - 1, w - 1, t - 1);
    }
  }

  lemma {:induction false} Pow2Plus8(n: nat)
    ensures Pow2(n + 8) == 256 * Pow2(n)
  {
    assert Pow2(n + 2) == 4 * Pow2(n);
    assert Pow2(n + 4) == 16 * Pow2(n);
    assert Pow2(n + 6) == 64 * Pow2(n);
  }
}
