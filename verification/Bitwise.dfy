/** Machine words as natural numbers, with the bit operations the gbase headers use.

A word of width w is a natural number below Pow2(w); wrap-around is written out as `% Pow2(w)`.
The bit operations are defined bit by bit, and the lemmas say how they act on a number that is
cut at a bit position.
*/
module Bitwise {

  function Pow2(n: nat): (p: nat)
    ensures p > 0
  {
    if n == 0 then 1 else 2 * Pow2(n - 1)
  }

  function Bit(b: bool): nat { if b then 1 else 0 }

  function And(x: nat, y: nat): nat {
    if x == 0 || y == 0 then 0 else 2 * And(x / 2, y / 2) + Bit(x % 2 == 1 && y % 2 == 1)
  }

  function Or(x: nat, y: nat): nat {
    if x == 0 && y == 0 then 0 else 2 * Or(x / 2, y / 2) + Bit(x % 2 == 1 || y % 2 == 1)
  }

  function Xor(x: nat, y: nat): nat {
    if x == 0 && y == 0 then 0 else 2 * Xor(x / 2, y / 2) + Bit(x % 2 != y % 2)
  }

  /** The complement of x in a word of the given width. */
  function Not(width: nat, x: nat): nat
    requires x < Pow2(width)
  {
    Pow2(width) - 1 - x
  }

  /** The number of one bits. */
  function Ones(x: nat): nat {
    if x == 0 then 0 else x % 2 + Ones(x / 2)
  }

  // ----- powers of two

  lemma {:induction false} Pow2Add(a: nat, b: nat)
    ensures Pow2(a + b) == Pow2(a) * Pow2(b)
  {
    if a == 0 {
    } else {
      Pow2Add(a - 1, b);
      assert Pow2(a + b) == 2 * Pow2(a - 1 + b);
      assert 2 * (Pow2(a - 1) * Pow2(b)) == (2 * Pow2(a - 1)) * Pow2(b);
    }
  }

  lemma {:induction false} Pow2Mono(a: nat, b: nat)
    requires a <= b
    ensures Pow2(a) <= Pow2(b)
  {
    if a < b {
      Pow2Mono(a, b - 1);
    }
  }

  lemma Pow2At8()
    ensures Pow2(8) == 256
  {
    assert Pow2(4) == 16;
    Pow2Add(4, 4);
  }

  lemma Pow2At32()
    ensures Pow2(32) == 0x1_0000_0000
  {
    Pow2At8();
    assert Pow2(16) == 0x1_0000 by { Pow2Add(8, 8); }
    Pow2Add(16, 16);
  }

  lemma Pow2At64()
    ensures Pow2(64) == 0x1_0000_0000_0000_0000
  {
    Pow2At32();
    Pow2Add(32, 32);
  }

  lemma Pow2At128()
    ensures Pow2(128) == 0x1_0000_0000_0000_0000_0000_0000_0000_0000
  {
    Pow2At64();
    Pow2Add(64, 64);
  }

  // ----- a number cut at a bit position

  lemma MultipleIsLarge(k: int, d: nat)
    ensures k > 0 ==> k * d >= d
    ensures k < 0 ==> k * d + d <= 0
  {
  }

  /** A number has only one quotient and remainder. */
  lemma DivModUnique(x: int, d: nat, q: int, r: nat)
    requires d > 0 && r < d && x == q * d + r
    ensures x / d == q && x % d == r
  {
    var q', r' := x / d, x % d;
    assert (q - q') * d == q * d - q' * d;
    MultipleIsLarge(q - q', d);
  }

  lemma DivModParts(t: int, d: nat)
    requires d > 0
    ensures t == (t / d) * d + t % d && 0 <= t % d < d
  {
  }

  lemma Distribute(a: nat, b: nat, c: nat)
    ensures a * (b + c) == a * b + a * c == (b + c) * a
  {
  }

  lemma ScaleSum(x: nat, y: nat, k: nat, p: nat)
    ensures (x * k + y) * p == (x * p) * k + y * p
  {
    assert (x * k) * p == (x * p) * k;
  }

  lemma DivShrinks(x: nat, p: nat)
    requires p > 0
    ensures 0 <= x / p <= x
  {
    DivBelow(x, p, x + 1);
  }

  lemma MulMono(a: int, b: int, d: nat)
    ensures a <= b ==> a * d <= b * d
  {
    assert (b - a) * d == b * d - a * d;
    MultipleIsLarge(b - a, d);
  }

  lemma DivBelow(x: nat, d: nat, bound: nat)
    requires d > 0 && x < bound * d
    ensures 0 <= x / d < bound
  {
    MulMono(bound, x / d, d);
  }

  /** The product by repeated addition. Proofs about sums of many products name them with it. */
  function Times(x: nat, y: nat): nat {
    if x == 0 then 0 else Times(x - 1, y) + y
  }

  lemma {:induction false} TimesIsProduct(x: nat, y: nat)
    ensures Times(x, y) == x * y
  {
    if x > 0 {
      TimesIsProduct(x - 1, y);
      assert (x - 1) * y == x * y - y;
    }
  }

  lemma TimesCommutes(x: nat, y: nat)
    ensures Times(x, y) == Times(y, x)
  {
    TimesIsProduct(x, y);
    TimesIsProduct(y, x);
  }

  lemma {:induction false} TimesAdds(x: nat, z: nat, y: nat)
    ensures Times(x + z, y) == Times(x, y) + Times(z, y)
  {
    if x > 0 {
      TimesAdds(x - 1, z, y);
      assert x + z - 1 == x - 1 + z;
    }
  }

  lemma {:induction false} TimesScales(k: nat, x: nat, y: nat)
    ensures Times(k * x, y) == k * Times(x, y)
  {
    if k > 0 {
      TimesScales(k - 1, x, y);
      assert k * x == (k - 1) * x + x && k * Times(x, y) == (k - 1) * Times(x, y) + Times(x, y);
      hide Times;
      TimesAdds((k - 1) * x, x, y);
    }
  }

  /** Multiplying by p inside a word of p * q values drops the quotient by q. */
  lemma ScaleInWord(x: nat, p: nat, q: nat)
    requires p > 0 && q > 0
    ensures p * q > 0
    ensures (x * p) / (p * q) == x / q && (x * p) % (p * q) == (x % q) * p
  {
    var d, r := x / q, x % q;
    assert x * p == (d * q) * p + r * p;
    assert (d * q) * p == d * (p * q);
    assert r * p < q * p;
    DivModUnique(x * p, p * q, d, r * p);
  }

  /** h shifted left by k bits, one bit at a time. */
  function Shift(k: nat, h: nat): nat {
    if k == 0 then h else 2 * Shift(k - 1, h)
  }

  lemma {:induction false} ShiftIsTimesPow2(k: nat, h: nat)
    ensures Shift(k, h) == Pow2(k) * h == h * Pow2(k)
  {
    if k > 0 {
      ShiftIsTimesPow2(k - 1, h);
      assert 2 * (Pow2(k - 1) * h) == (2 * Pow2(k - 1)) * h;
    }
  }

  lemma AndStep(x: nat, i: nat, y: nat, j: nat)
    requires i < 2 && j < 2
    ensures And(2 * x + i, 2 * y + j) == 2 * And(x, y) + Bit(i == 1 && j == 1)
  {
    assert (2 * x + i) / 2 == x && (2 * y + j) / 2 == y;
  }

  lemma {:induction false} AndJoin(k: nat, x: nat, xh: nat, y: nat, yh: nat)
    requires x < Pow2(k) && y < Pow2(k)
    ensures And(x + Shift(k, xh), y + Shift(k, yh)) == And(x, y) + Shift(k, And(xh, yh))
  {
    if k > 0 {
      var x', y' := x / 2, y / 2;
      AndJoin(k - 1, x', xh, y', yh);
      AndStep(x' + Shift(k - 1, xh), x % 2, y' + Shift(k - 1, yh), y % 2);
      AndStep(x', x % 2, y', y % 2);
    }
  }

  lemma OrStep(x: nat, i: nat, y: nat, j: nat)
    requires i < 2 && j < 2
    ensures Or(2 * x + i, 2 * y + j) == 2 * Or(x, y) + Bit(i == 1 || j == 1)
  {
    assert (2 * x + i) / 2 == x && (2 * y + j) / 2 == y;
  }

  lemma {:induction false} OrJoin(k: nat, x: nat, xh: nat, y: nat, yh: nat)
    requires x < Pow2(k) && y < Pow2(k)
    ensures Or(x + Shift(k, xh), y + Shift(k, yh)) == Or(x, y) + Shift(k, Or(xh, yh))
  {
    if k > 0 {
      var x', y' := x / 2, y / 2;
      OrJoin(k - 1, x', xh, y', yh);
      OrStep(x' + Shift(k - 1, xh), x % 2, y' + Shift(k - 1, yh), y % 2);
      OrStep(x', x % 2, y', y % 2);
    }
  }

  lemma XorStep(x: nat, i: nat, y: nat, j: nat)
    requires i < 2 && j < 2
    ensures Xor(2 * x + i, 2 * y + j) == 2 * Xor(x, y) + Bit(i != j)
  {
    assert (2 * x + i) / 2 == x && (2 * y + j) / 2 == y;
  }

  lemma {:induction false} XorJoin(k: nat, x: nat, xh: nat, y: nat, yh: nat)
    requires x < Pow2(k) && y < Pow2(k)
    ensures Xor(x + Shift(k, xh), y + Shift(k, yh)) == Xor(x, y) + Shift(k, Xor(xh, yh))
  {
    if k > 0 {
      var x', y' := x / 2, y / 2;
      XorJoin(k - 1, x', xh, y', yh);
      XorStep(x' + Shift(k - 1, xh), x % 2, y' + Shift(k - 1, yh), y % 2);
      XorStep(x', x % 2, y', y % 2);
    }
  }

  lemma {:induction false} OrZero(x: nat)
    ensures Or(x, 0) == x && Or(0, x) == x
  {
    if x > 0 {
      OrZero(x / 2);
    }
  }

  lemma {:induction false} XorZero(x: nat)
    ensures Xor(x, 0) == x && Xor(0, x) == x
  {
    if x > 0 {
      XorZero(x / 2);
    }
  }

  lemma {:induction false} AndAllOnes(k: nat, r: nat)
    requires r < Pow2(k)
    ensures And(r, Pow2(k) - 1) == r
  {
    if k > 0 {
      AndAllOnes(k - 1, r / 2);
      AndStep(r / 2, r % 2, Pow2(k - 1) - 1, 1);
    }
  }

  /** Masking with 2^k - 1 keeps the k low bits. */
  lemma AndLowBits(k: nat, low: nat, high: nat)
    requires low < Pow2(k)
    ensures And(low + Shift(k, high), Pow2(k) - 1) == low
  {
    ShiftIsTimesPow2(k, 0);
    AndJoin(k, low, high, Pow2(k) - 1, 0);
    AndAllOnes(k, low);
  }

  /** Or of two numbers whose bits lie on different sides of bit k is their sum. */
  lemma OrDisjoint(k: nat, hi: nat, lo: nat)
    requires lo < Pow2(k)
    ensures Or(hi * Pow2(k), lo) == hi * Pow2(k) + lo
    ensures Or(lo, hi * Pow2(k)) == lo + hi * Pow2(k)
  {
    ShiftIsTimesPow2(k, hi);
    OrShifted(k, hi, lo);
  }

  lemma OrShifted(k: nat, hi: nat, lo: nat)
    requires lo < Pow2(k)
    ensures Or(Shift(k, hi), lo) == Shift(k, hi) + lo
    ensures Or(lo, Shift(k, hi)) == lo + Shift(k, hi)
  {
    ShiftIsTimesPow2(k, 0);
    OrJoin(k, 0, hi, lo, 0);
    OrJoin(k, lo, 0, 0, hi);
    OrZero(lo);
    OrZero(hi);
  }

  lemma {:induction false} OrBound(k: nat, x: nat, y: nat)
    requires x < Pow2(k) && y < Pow2(k)
    ensures Or(x, y) < Pow2(k)
  {
    if k > 0 {
      OrBound(k - 1, x / 2, y / 2);
      OrStep(x / 2, x % 2, y / 2, y % 2);
    }
  }

  lemma {:induction false} AndBound(x: nat, y: nat)
    ensures And(x, y) <= x && And(x, y) <= y
  {
    if x != 0 && y != 0 {
      AndBound(x / 2, y / 2);
    }
  }

  lemma {:induction false} XorBound(k: nat, x: nat, y: nat)
    requires x < Pow2(k) && y < Pow2(k)
    ensures Xor(x, y) < Pow2(k)
  {
    if k > 0 {
      XorBound(k - 1, x / 2, y / 2);
      XorStep(x / 2, x % 2, y / 2, y % 2);
    }
  }

  /** Two numbers differ exactly when their exclusive or is not zero. */
  lemma {:induction false} XorIsZero(x: nat, y: nat)
    ensures Xor(x, y) == 0 <==> x == y
  {
    if x != 0 || y != 0 {
      XorIsZero(x / 2, y / 2);
    }
  }

  // ----- counting bits

  lemma OnesStep(x: nat, i: nat)
    requires i < 2
    ensures Ones(2 * x + i) == i + Ones(x)
  {
    assert (2 * x + i) / 2 == x;
  }

  /** The bits of a number cut at position k. */
  lemma {:induction false} OnesJoin(k: nat, low: nat, high: nat)
    requires low < Pow2(k)
    ensures Ones(low + Shift(k, high)) == Ones(low) + Ones(high)
  {
    if k > 0 {
      OnesJoin(k - 1, low / 2, high);
      assert (low + Shift(k, high)) / 2 == low / 2 + Shift(k - 1, high);
      assert Ones(low) == low % 2 + Ones(low / 2);
    }
  }

  lemma OnesOfPair(f: nat)
    requires f < 4
    ensures Ones(f) == f - f / 2 <= 2
  {
    OnesStep(f / 2, f % 2);
    OnesStep(0, f / 2);
  }

  lemma Shift2(x: nat)
    ensures Shift(2, x) == 4 * x && Pow2(2) == 4
  {
    assert Shift(1, x) == 2 * x && Pow2(1) == 2;
  }

  lemma Shift4(x: nat)
    ensures Shift(4, x) == 16 * x && Pow2(4) == 16
  {
    Shift2(x);
    assert Shift(3, x) == 8 * x && Pow2(3) == 8;
  }

  lemma Shift8(x: nat)
    ensures Shift(8, x) == 256 * x && Pow2(8) == 256
  {
    Shift4(x);
    assert Shift(6, x) == 64 * x && Pow2(6) == 64 by {
      assert Shift(5, x) == 32 * x && Pow2(5) == 32;
    }
    assert Shift(7, x) == 128 * x && Pow2(7) == 128;
  }

  lemma OnesOfNibble(n: nat)
    requires n < 16
    ensures Ones(n) == Ones(n % 4) + Ones(n / 4) <= 4
  {
    Shift2(n / 4);
    OnesJoin(2, n % 4, n / 4);
    OnesOfPair(n % 4);
    OnesOfPair(n / 4);
  }

  lemma OnesOfByte(n: nat)
    requires n < 256
    ensures Ones(n) == Ones(n % 16) + Ones(n / 16) <= 8
  {
    Shift4(n / 16);
    OnesJoin(4, n % 16, n / 16);
    OnesOfNibble(n % 16);
    OnesOfNibble(n / 16);
  }
}
