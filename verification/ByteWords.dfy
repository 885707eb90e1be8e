/** The word-parallel byte tests of gbase/bits.h, for words of any number of bytes.

A word of n bytes is a number below Size(n); Bytes gives its bytes, lowest first. The tests look at all
bytes with one subtraction; the proofs walk up from the lowest byte, where no borrow can have come in.
*/
module ByteWords {
  import opened Bitwise

  /** 256^n, the number of words of n bytes. */
  function Size(n: nat): (s: nat)
    ensures s > 0
  {
    if n == 0 then 1 else 256 * Size(n - 1)
  }

  /** The bytes of a word, lowest first. */
  function Bytes(n: nat, w: nat): (bytes: seq<nat>)
    ensures |bytes| == n
  {
    if n == 0 then [] else [w % 256] + Bytes(n - 1, w / 256)
  }

  /** The number whose n base-256 digits are all a; a may be negative. */
  function Fill(n: nat, a: int): int {
    if n == 0 then 0 else a + 256 * Fill(n - 1, a)
  }

  // ----- BitPattern<T> for a type of n bytes

  predicate WordType(n: nat) { n == 1 || (n > 0 && n % 2 == 0) }

  function HalfOnes(n: nat): nat { Pow2(4 * n) - 1 }

  function L(n: nat): nat {
    if n == 1 then 1 else HalfOnes(n) / 0xff * (HalfOnes(n) + 2)
  }

  function H(n: nat): nat { (Size(n) - 1 - L(n) * 0x7f) % Size(n) }

  // ----- the tests

  function Plus(n: nat, x: int, y: int): (r: nat)
    ensures r < Size(n)
  {
    (x + y) % Size(n)
  }

  predicate BytesContainByteLessThan(n: nat, w: nat, c: nat)
    requires w < Size(n)
  {
    var l, h := L(n), H(n);
    if c <= 0x80 then And(And(h, Plus(n, w, -(l * c))), Size(n) - 1 - w) != 0
    else And(Or(Plus(n, w, -(l * c)), Xor(w, h)), h) != 0
  }

  predicate BytesContainByte(n: nat, w: nat, c: nat)
    requires w < Size(n)
  {
    BytesContainByteLessThan(n, Xor(w, c * L(n)) % Size(n), 1)
  }

  /** The width at which the last branch of BytesAllInRange runs its test: the sum it passes on has been
      promoted to a 4-byte int when the words are narrower than that. */
  function PromotedWidth(n: nat): nat { if n < 4 then 4 else n }

  predicate BytesAllInRange(n: nat, w: nat, lo: nat, hi: nat)
    requires w < Size(n) && lo < 256 && hi < 256
  {
    var l, h := L(n), H(n);
    if lo > hi then false
    else if hi - lo < 128 then
      And(Or(Plus(n, w, -(l * lo)), Plus(n, w, l * (127 - hi))), h) == 0
    else
      var m := PromotedWidth(n);
      !BytesContainByteLessThan(m, Plus(m, w, (255 - hi) * l), lo + (255 - hi))
  }

  // ----- the patterns

  lemma {:induction false} FillIsTimes(n: nat, a: int)
    ensures Fill(n, a) == Fill(n, 1) * a
  {
    if n > 0 {
      FillIsTimes(n - 1, a);
      assert (1 + 256 * Fill(n - 1, 1)) * a == a + 256 * (Fill(n - 1, 1) * a);
    }
  }

  lemma {:induction false} FillMax(n: nat)
    ensures Fill(n, 255) == Size(n) - 1
  {
    if n > 0 {
      FillMax(n - 1);
    }
  }

  lemma {:induction false} FillBound(n: nat, a: nat)
    requires a < 256
    ensures 0 <= Fill(n, a) < Size(n)
  {
    if n > 0 {
      FillBound(n - 1, a);
    }
  }

  lemma {:induction false} SizeIsPow2(n: nat)
    ensures Size(n) == Pow2(8 * n)
  {
    if n > 0 {
      SizeIsPow2(n - 1);
      Pow2Add(8, 8 * (n - 1));
      Pow2At8();
    }
  }

  lemma {:induction false} FillAdds(m: nat, k: nat)
    ensures Fill(m + k, 1) == Fill(m, 1) + Size(m) * Fill(k, 1)
  {
    if m > 0 {
      FillAdds(m - 1, k);
      assert Fill(m + k, 1) == 1 + 256 * Fill(m - 1 + k, 1);
      assert Size(m) * Fill(k, 1) == 256 * (Size(m - 1) * Fill(k, 1));
    }
  }

  /** l is 0x0101...01. */
  lemma LowPattern(n: nat)
    requires WordType(n)
    ensures L(n) == Fill(n, 1)
  {
    if n > 1 {
      var m := n / 2;
      SizeIsPow2(m);
      FillMax(m);
      FillIsTimes(m, 255);
      FillAdds(m, m);
      LowPatternProduct(HalfOnes(n), Fill(m, 1), Size(m), Fill(n, 1));
    }
  }

  lemma LowPatternProduct(half: nat, f: nat, s: nat, whole: nat)
    requires half == f * 255 == s - 1 && whole == f + s * f
    ensures half / 0xff * (half + 2) == whole
  {
    assert half / 0xff == f;
    assert f * (s + 1) == f * s + f;
  }

  /** h is 0x8080...80. */
  lemma HighPattern(n: nat)
    requires WordType(n)
    ensures H(n) == Fill(n, 128)
  {
    LowPattern(n);
    FillMax(n);
    FillIsTimes(n, 255);
    FillIsTimes(n, 128);
    FillBound(n, 128);
    SmallMod(Fill(n, 128), Size(n));
  }

  lemma SmallMod(x: nat, s: nat)
    requires x < s
    ensures x % s == x
  {
    DivModUnique(x, s, 0, x);
  }

  // ----- bytes and carries

  lemma AndBytes(x: nat, xs: nat, y: nat, ys: nat)
    requires x < 256 && y < 256
    ensures And(x + 256 * xs, y + 256 * ys) == And(x, y) + 256 * And(xs, ys)
  {
    Pow2At8();
    AndJoin(8, x, xs, y, ys);
    ShiftIsTimesPow2(8, xs);
    ShiftIsTimesPow2(8, ys);
    ShiftIsTimesPow2(8, And(xs, ys));
  }

  lemma OrBytes(x: nat, xs: nat, y: nat, ys: nat)
    requires x < 256 && y < 256
    ensures Or(x + 256 * xs, y + 256 * ys) == Or(x, y) + 256 * Or(xs, ys)
  {
    Pow2At8();
    OrJoin(8, x, xs, y, ys);
    ShiftIsTimesPow2(8, xs);
    ShiftIsTimesPow2(8, ys);
    ShiftIsTimesPow2(8, Or(xs, ys));
  }

  lemma XorBytes(x: nat, xs: nat, y: nat, ys: nat)
    requires x < 256 && y < 256
    ensures Xor(x + 256 * xs, y + 256 * ys) == Xor(x, y) + 256 * Xor(xs, ys)
  {
    Pow2At8();
    XorJoin(8, x, xs, y, ys);
    ShiftIsTimesPow2(8, xs);
    ShiftIsTimesPow2(8, ys);
    ShiftIsTimesPow2(8, Xor(xs, ys));
  }

  /** Adding the same a to every byte: the low byte is right, and as long as it does not wrap the bytes
      above see no carry and no borrow. */
  lemma AddToBytes(n: nat, w: nat, a: int)
    requires n > 0
    ensures Plus(n, w, Fill(n, a)) % 256 == (w % 256 + a) % 256
    ensures 0 <= w % 256 + a < 256 ==> Plus(n, w, Fill(n, a)) / 256 == Plus(n - 1, w / 256, Fill(n - 1, a))
  {
    hide *;
    LowByteAfterAdd(n, w, a);
    if 0 <= w % 256 + a < 256 {
      NoCarryAfterAdd(n, w, a);
    }
  }

  lemma LowByteAfterAdd(n: nat, w: nat, a: int)
    requires n > 0
    ensures Plus(n, w, Fill(n, a)) % 256 == (w % 256 + a) % 256
  {
    LowByteOfMod(w + Fill(n, a), Size(n), Size(n - 1));
    SameLowByte(w + Fill(n, a), w % 256 + a, w / 256 + Fill(n - 1, a));
  }

  lemma NoCarryAfterAdd(n: nat, w: nat, a: int)
    requires n > 0 && 0 <= w % 256 + a < 256
    ensures Plus(n, w, Fill(n, a)) / 256 == Plus(n - 1, w / 256, Fill(n - 1, a))
  {
    AboveByte(w % 256 + a, w / 256 + Fill(n - 1, a), Size(n - 1), Size(n));
  }

  lemma AboveByte(x: nat, u: int, s: nat, d: nat)
    requires s > 0 && x < 256 && d == 256 * s
    ensures ((x + 256 * u) % d) / 256 == u % s
  {
    var q, r := u / s, u % s;
    DivModParts(u, s);
    CutAtByte(x, u, s, q, r);
  }

  lemma LowByteOfMod(t: int, d: nat, s: nat)
    requires d > 0 && d == 256 * s
    ensures (t % d) % 256 == t % 256
  {
    DivModParts(t, d);
    Reassociate(t / d, d, s);
    SameLowByte(t, t % d, (t / d) * s);
  }

  lemma Reassociate(q: int, d: nat, s: nat)
    requires d == 256 * s
    ensures q * d == 256 * (q * s)
  {
  }

  lemma SameLowByte(t: int, v: int, k: int)
    requires t == 256 * k + v
    ensures v % 256 == t % 256
  {
  }

  lemma CutAtByte(x: nat, u: int, s: nat, q: int, r: nat)
    requires x < 256 && u == q * s + r && r < s
    ensures ((x + 256 * u) % (256 * s)) / 256 == r
  {
    Reassociate(q, 256 * s, s);
    DivModUnique(x + 256 * u, 256 * s, q, x + 256 * r);
  }

  // ----- the flag bits of one byte

  lemma TopBitAnd(x: nat)
    requires x < 256
    ensures And(128, x) == And(x, 128) == if x >= 128 then 128 else 0
  {
    var r, t := x % 128, x / 128;
    assert x == r + 128 * t && t < 2;
    Pow2At7();
    ShiftIsTimesPow2(7, 1);
    ShiftIsTimesPow2(7, t);
    AndJoin(7, 0, 1, r, t);
    AndJoin(7, r, t, 0, 1);
    ShiftIsTimesPow2(7, And(1, t));
    ShiftIsTimesPow2(7, And(t, 1));
    AndBits(t);
  }

  lemma Pow2At7()
    ensures Pow2(7) == 128
  {
    Pow2At8();
  }

  lemma AndBits(t: nat)
    requires t < 2
    ensures And(1, t) == And(t, 1) == t
  {
  }

  lemma OrTop(x: nat, y: nat)
    requires x < 256 && y < 256
    ensures Or(x, y) < 256 && (Or(x, y) >= 128 <==> x >= 128 || y >= 128)
  {
    Pow2At7();
    OrJoin(7, x % 128, x / 128, y % 128, y / 128);
    OrBound(7, x % 128, y % 128);
    ShiftIsTimesPow2(7, x / 128);
    ShiftIsTimesPow2(7, y / 128);
    ShiftIsTimesPow2(7, Or(x / 128, y / 128));
    OrBits(x / 128, y / 128);
  }

  lemma OrBits(s: nat, t: nat)
    requires s < 2 && t < 2
    ensures Or(s, t) == if s + t == 0 then 0 else 1
  {
  }

  lemma XorTop(x: nat)
    requires x < 256
    ensures Xor(x, 128) == if x >= 128 then x - 128 else x + 128
  {
    Pow2At7();
    ShiftIsTimesPow2(7, 1);
    ShiftIsTimesPow2(7, x / 128);
    XorJoin(7, x % 128, x / 128, 0, 1);
    XorZero(x % 128);
    ShiftIsTimesPow2(7, Xor(x / 128, 1));
    XorBits(x / 128);
  }

  lemma XorBits(t: nat)
    requires t < 2
    ensures Xor(t, 1) == 1 - t
  {
  }

  // ----- the flag bits of a word

  /** Some byte of d has its top bit set where the byte of w has not. */
  predicate LowFlag(n: nat, w: nat, d: nat) {
    n > 0 && ((d % 256 >= 128 && w % 256 < 128) || LowFlag(n - 1, w / 256, d / 256))
  }

  /** Some byte of x or of y has its top bit set. */
  predicate EitherFlag(n: nat, x: nat, y: nat) {
    n > 0 && (x % 256 >= 128 || y % 256 >= 128 || EitherFlag(n - 1, x / 256, y / 256))
  }

  /** `(h & d & ~w) != 0` looks for a low flag. */
  lemma {:induction false} LowFlagMask(n: nat, h: nat, w: nat, d: nat)
    requires w < Size(n) && h == Fill(n, 128)
    ensures And(And(h, d), Size(n) - 1 - w) != 0 <==> LowFlag(n, w, d)
  {
    if n == 0 {
      ZeroAnd(d);
    } else {
      hide And;
      FillBound(n - 1, 128);
      LowFlagMask(n - 1, Fill(n - 1, 128), w / 256, d / 256);
      LowFlagStep(Fill(n - 1, 128), Size(n - 1), w, d);
      TopBitAnd(d % 256);
      TopBitAnd(255 - w % 256);
      ZeroAnd(255 - w % 256);
    }
  }

  lemma LowFlagStep(h: nat, s: nat, w: nat, d: nat)
    requires w < 256 * s
    ensures And(And(128 + 256 * h, d), 256 * s - 1 - w)
            == And(And(128, d % 256), 255 - w % 256) + 256 * And(And(h, d / 256), s - 1 - w / 256)
  {
    TopBitAnd(d % 256);
    hide And;
    AndBytes(128, h, d % 256, d / 256);
    AndBytes(And(128, d % 256), And(h, d / 256), 255 - w % 256, s - 1 - w / 256);
  }

  /** `((x | y) & h) != 0` looks for a flag in either word. */
  lemma {:induction false} EitherFlagMask(n: nat, h: nat, x: nat, y: nat)
    requires h == Fill(n, 128)
    ensures And(Or(x, y), h) != 0 <==> EitherFlag(n, x, y)
  {
    if n == 0 {
      ZeroAnd(Or(x, y));
    } else {
      hide And, Or;
      var x0, x', y0, y' := x % 256, x / 256, y % 256, y / 256;
      FillBound(n - 1, 128);
      var h' := Fill(n - 1, 128);
      EitherFlagMask(n - 1, h', x', y');
      OrBytes(x0, x', y0, y');
      OrTop(x0, y0);
      AndBytes(Or(x0, y0), Or(x', y'), 128, h');
      TopBitAnd(Or(x0, y0));
    }
  }

  lemma ZeroAnd(x: nat)
    ensures And(0, x) == 0 && And(x, 0) == 0
  {
  }

  lemma XorFillStep(n: nat, w: nat)
    requires n > 0
    ensures Fill(n, 128) >= 0 && Fill(n - 1, 128) >= 0
    ensures Xor(w, Fill(n, 128)) % 256 >= 128 <==> w % 256 < 128
    ensures Xor(w, Fill(n, 128)) / 256 == Xor(w / 256, Fill(n - 1, 128))
  {
    FillBound(n - 1, 128);
    XorBytes(w % 256, w / 256, 128, Fill(n - 1, 128));
    XorTop(w % 256);
    SplitByte(Xor(w, Fill(n, 128)), Xor(w % 256, 128), Xor(w / 256, Fill(n - 1, 128)));
  }

  lemma SplitByte(x: nat, low: nat, high: nat)
    requires x == low + 256 * high && low < 256
    ensures x % 256 == low && x / 256 == high
  {
  }

  // ----- some byte below c

  ghost predicate SomeByteBelow(n: nat, w: nat, c: nat) { exists b :: b in Bytes(n, w) && b < c }

  ghost predicate SomeByteIs(n: nat, w: nat, c: nat) { c in Bytes(n, w) }

  ghost predicate AllBytesIn(n: nat, w: nat, lo: nat, hi: nat) { forall b :: b in Bytes(n, w) ==> lo <= b <= hi }

  lemma SomeByteBelowStep(n: nat, w: nat, c: nat)
    requires n > 0
    ensures SomeByteBelow(n, w, c) <==> w % 256 < c || SomeByteBelow(n - 1, w / 256, c)
  {
    BytesStep(n, w);
    if w % 256 < c {
      assert w % 256 in Bytes(n, w);
    }
    if SomeByteBelow(n - 1, w / 256, c) {
      var b :| b in Bytes(n - 1, w / 256) && b < c;
      assert b in Bytes(n, w);
    }
    if SomeByteBelow(n, w, c) && w % 256 >= c {
      var b :| b in Bytes(n, w) && b < c;
      assert b in Bytes(n - 1, w / 256);
    }
  }

  lemma BytesStep(n: nat, w: nat)
    requires n > 0
    ensures forall b :: b in Bytes(n, w) <==> b == w % 256 || b in Bytes(n - 1, w / 256)
  {
    assert Bytes(n, w)[0] == w % 256;
  }

  lemma AllBytesInStep(n: nat, w: nat, lo: nat, hi: nat)
    requires n > 0
    ensures AllBytesIn(n, w, lo, hi) <==> lo <= w % 256 <= hi && AllBytesIn(n - 1, w / 256, lo, hi)
  {
    BytesStep(n, w);
    assert w % 256 in Bytes(n, w);
    if !AllBytesIn(n - 1, w / 256, lo, hi) {
      var b :| b in Bytes(n - 1, w / 256) && !(lo <= b <= hi);
      assert b in Bytes(n, w);
    }
  }

  /** A byte that leaves 0..255 wraps once. */
  lemma WrapByte(x: int)
    requires -256 <= x < 512
    ensures x % 256 == if x < 0 then x + 256 else if x < 256 then x else x - 256
  {
  }

  /** The test for c <= 0x80: at the lowest byte below c no borrow comes in, and its flag is raised. */
  lemma {:induction false} LowFlagFinds(n: nat, w: nat, c: int)
    requires 0 <= c <= 128
    ensures LowFlag(n, w, Plus(n, w, Fill(n, -c))) <==> SomeByteBelow(n, w, c)
  {
    if n > 0 {
      AddToBytes(n, w, -c);
      WrapByte(w % 256 - c);
      SomeByteBelowStep(n, w, c);
      if w % 256 >= c {
        LowFlagFinds(n - 1, w / 256, c);
      }
    }
  }

  /** The test for c > 0x80. */
  lemma {:induction false} EitherFlagFinds(n: nat, w: nat, c: int)
    requires 128 < c < 256
    ensures Fill(n, 128) >= 0
    ensures EitherFlag(n, Plus(n, w, Fill(n, -c)), Xor(w, Fill(n, 128))) <==> SomeByteBelow(n, w, c)
  {
    if n > 0 {
      AddToBytes(n, w, -c);
      WrapByte(w % 256 - c);
      XorFillStep(n, w);
      SomeByteBelowStep(n, w, c);
      if w % 256 >= c {
        EitherFlagFinds(n - 1, w / 256, c);
      }
    }
  }

  lemma LowBranch(n: nat, l: nat, h: nat, w: nat, c: nat)
    requires w < Size(n) && c <= 128 && l == Fill(n, 1) && h == Fill(n, 128)
    ensures And(And(h, Plus(n, w, -(l * c))), Size(n) - 1 - w) != 0 <==> SomeByteBelow(n, w, c)
  {
    LowFlagFinds(n, w, c);
    LowFlagMask(n, h, w, Plus(n, w, Fill(n, -1 * c)));
    FillOfMultiple(n, l, c);
  }

  lemma HighBranch(n: nat, l: nat, h: nat, w: nat, c: nat)
    requires w < Size(n) && 128 < c < 256 && l == Fill(n, 1) && h == Fill(n, 128)
    ensures And(Or(Plus(n, w, -(l * c)), Xor(w, h)), h) != 0 <==> SomeByteBelow(n, w, c)
  {
    EitherFlagFinds(n, w, c);
    EitherFlagMask(n, h, Plus(n, w, Fill(n, -1 * c)), Xor(w, h));
    FillOfMultiple(n, l, c);
  }

  /** `BytesContainByteLessThan` is true exactly when some byte is below c, in both of its branches. */
  lemma LessThanTestCorrect(n: nat, w: nat, c: nat)
    requires WordType(n) && w < Size(n) && c < 256
    ensures BytesContainByteLessThan(n, w, c) <==> SomeByteBelow(n, w, c)
  {
    hide And, Or, Xor, Fill, SomeByteBelow;
    LowPattern(n);
    HighPattern(n);
    if c <= 0x80 {
      LowBranch(n, L(n), H(n), w, c);
    } else {
      HighBranch(n, L(n), H(n), w, c);
    }
  }

  lemma FillOfMultiple(n: nat, l: nat, a: int)
    requires l == Fill(n, 1)
    ensures l * a == Fill(n, a) && -(l * a) == Fill(n, -a)
  {
    FillIsTimes(n, a);
    FillIsTimes(n, -a);
    assert l * -a == -(l * a);
  }

  // ----- some byte equal to c

  lemma XorByteBound(x: nat, y: nat)
    requires x < 256 && y < 256
    ensures Xor(x, y) < 256
  {
    Pow2At8();
    XorBound(8, x, y);
  }

  lemma {:induction false} XorFillFinds(n: nat, w: nat, c: nat)
    requires w < Size(n) && c < 256
    ensures 0 <= Fill(n, c) && Xor(w, Fill(n, c)) < Size(n)
    ensures SomeByteBelow(n, Xor(w, Fill(n, c)), 1) <==> SomeByteIs(n, w, c)
  {
    if n > 0 {
      var w0, w' := w % 256, w / 256;
      XorFillFinds(n - 1, w', c);
      var x := Xor(w', Fill(n - 1, c));
      XorBytes(w0, w', c, Fill(n - 1, c));
      XorByteBound(w0, c);
      XorIsZero(w0, c);
      SplitByte(Xor(w, Fill(n, c)), Xor(w0, c), x);
      SomeByteBelowStep(n, Xor(w, Fill(n, c)), 1);
      BytesStep(n, w);
    }
  }

  /** `BytesContainByte` is true exactly when some byte equals c. */
  lemma EqualTestCorrect(n: nat, w: nat, c: nat)
    requires WordType(n) && w < Size(n) && c < 256
    ensures BytesContainByte(n, w, c) <==> SomeByteIs(n, w, c)
  {
    LowPattern(n);
    FillOfMultiple(n, L(n), c);
    XorFillFinds(n, w, c);
    SmallMod(Xor(w, Fill(n, c)), Size(n));
    LessThanTestCorrect(n, Xor(w, Fill(n, c)), 1);
  }

  // ----- all bytes in a range

  lemma EitherFlagStep(n: nat, x: nat, y: nat)
    requires n > 0
    ensures EitherFlag(n, x, y) <==> x % 256 >= 128 || y % 256 >= 128 || EitherFlag(n - 1, x / 256, y / 256)
  {
  }

  /** The narrow range: at the lowest byte outside [lo, hi] one of the two sums raises its flag. */
  lemma {:induction false} NarrowRangeFinds(n: nat, w: nat, lo: int, hi: int)
    requires 0 <= lo <= hi < 256 && hi - lo < 128
    ensures EitherFlag(n, Plus(n, w, Fill(n, -lo)), Plus(n, w, Fill(n, 127 - hi))) <==> !AllBytesIn(n, w, lo, hi)
  {
    if n > 0 {
      hide AllBytesIn, SomeByteBelow, Fill, Plus, EitherFlag;
      EitherFlagStep(n, Plus(n, w, Fill(n, -lo)), Plus(n, w, Fill(n, 127 - hi)));
      AddToBytes(n, w, -lo);
      AddToBytes(n, w, 127 - hi);
      WrapByte(w % 256 - lo);
      WrapByte(w % 256 + 127 - hi);
      AllBytesInStep(n, w, lo, hi);
      if lo <= w % 256 <= hi {
        NarrowRangeFinds(n - 1, w / 256, lo, hi);
      }
    }
  }

  /** The wide range: sliding hi up to 255 puts exactly the bytes outside [lo, hi] below lo + (255 - hi). */
  lemma {:induction false} WideRangeFinds(n: nat, w: nat, lo: int, hi: int)
    requires 0 <= lo <= hi < 256 && hi - lo >= 128
    ensures SomeByteBelow(n, Plus(n, w, Fill(n, 255 - hi)), lo + (255 - hi)) <==> !AllBytesIn(n, w, lo, hi)
  {
    if n > 0 {
      hide AllBytesIn, SomeByteBelow;
      AddToBytes(n, w, 255 - hi);
      WrapByte(w % 256 + 255 - hi);
      AllBytesInStep(n, w, lo, hi);
      SomeByteBelowStep(n, Plus(n, w, Fill(n, 255 - hi)), lo + (255 - hi));
      if lo <= w % 256 <= hi {
        WideRangeFinds(n - 1, w / 256, lo, hi);
      }
    }
  }

  lemma NarrowRangeCorrect(n: nat, w: nat, lo: nat, hi: nat)
    requires WordType(n) && w < Size(n) && lo <= hi < 256 && hi - lo < 128
    ensures BytesAllInRange(n, w, lo, hi) <==> AllBytesIn(n, w, lo, hi)
  {
    LowPattern(n);
    HighPattern(n);
    FillOfMultiple(n, L(n), lo);
    FillOfMultiple(n, L(n), 127 - hi);
    NarrowRangeFinds(n, w, lo, hi);
    EitherFlagMask(n, H(n), Plus(n, w, Fill(n, -1 * lo)), Plus(n, w, Fill(n, 127 - hi)));
  }

  lemma WideTest(n: nat, w: nat, lo: nat, hi: nat, l: nat)
    requires WordType(n) && w < Size(n) && lo <= hi < 256 && hi - lo >= 128 && l == Fill(n, 1)
    ensures BytesContainByteLessThan(n, Plus(n, w, (255 - hi) * l), lo + (255 - hi)) <==> !AllBytesIn(n, w, lo, hi)
  {
    hide *;
    FillOfMultiple(n, l, 255 - hi);
    WideRangeFinds(n, w, lo, hi);
    LessThanTestCorrect(n, Plus(n, w, Fill(n, 255 - hi)), lo + (255 - hi));
  }

  lemma WideRangeCorrect(n: nat, w: nat, lo: nat, hi: nat)
    requires WordType(n) && n >= 4 && w < Size(n) && lo <= hi < 256 && hi - lo >= 128
    ensures BytesAllInRange(n, w, lo, hi) <==> AllBytesIn(n, w, lo, hi)
  {
    LowPattern(n);
    WideTest(n, w, lo, hi, L(n));
  }

  /** A one- or two-byte word reaches the last branch as a 4-byte int whose top byte is zero, so a wide
      range is reported as violated whatever the word, unless it is [0, 255]. */
  lemma WideRangeOnNarrowWord(n: nat, w: nat, lo: nat, hi: nat)
    requires WordType(n) && n < 4 && w < Size(n) && lo <= hi < 256 && hi - lo >= 128
    ensures BytesAllInRange(n, w, lo, hi) <==> lo == 0 && hi == 255
  {
    hide BytesContainByteLessThan;
    LowPattern(n);
    var arg := Plus(4, w, (255 - hi) * L(n));
    NarrowSum(n, w, 255 - hi, L(n));
    LessThanTestCorrect(4, arg, lo + (255 - hi));
    TopByteOfFour(arg);
  }

  lemma TopByteOfFour(x: nat)
    requires x < 0x100_0000
    ensures 0 in Bytes(4, x)
  {
    BytesStep(4, x);
    BytesStep(3, x / 256);
    BytesStep(2, x / 256 / 256);
    BytesStep(1, x / 256 / 256 / 256);
  }

  lemma NarrowSum(n: nat, w: nat, a: nat, l: nat)
    requires 1 <= n <= 2 && w < Size(n) && a < 128 && l == Fill(n, 1)
    ensures Plus(4, w, a * l) < 0x100_0000
  {
    assert Size(1) == 256 && Size(2) == 0x1_0000 && Fill(1, 1) == 1 && Fill(2, 1) == 257;
    assert l <= 257 ==> a * l <= 127 * 257;
  }

  /** BytesAllInRange is right for every word of n bytes exactly when the words have at least four bytes, or
      the range spans fewer than 128 values, or it is empty or full. */
  lemma RangeTestCorrectIff(n: nat, lo: nat, hi: nat)
    requires WordType(n) && lo < 256 && hi < 256
    ensures (forall w: nat | w < Size(n) :: BytesAllInRange(n, w, lo, hi) <==> AllBytesIn(n, w, lo, hi))
            <==> n >= 4 || hi - lo < 128 || (lo == 0 && hi == 255)
  {
    if n >= 4 || hi - lo < 128 || (lo == 0 && hi == 255) {
      forall w: nat | w < Size(n) ensures BytesAllInRange(n, w, lo, hi) <==> AllBytesIn(n, w, lo, hi) {
        RangeTestCorrect(n, w, lo, hi);
      }
    } else {
      FillBound(n, lo);
      WideRangeOnNarrowWord(n, Fill(n, lo), lo, hi);
      FillBytes(n, lo);
      assert AllBytesIn(n, Fill(n, lo), lo, hi);
    }
  }

  lemma RangeTestCorrect(n: nat, w: nat, lo: nat, hi: nat)
    requires WordType(n) && w < Size(n) && lo < 256 && hi < 256
    requires n >= 4 || hi - lo < 128 || (lo == 0 && hi == 255)
    ensures BytesAllInRange(n, w, lo, hi) <==> AllBytesIn(n, w, lo, hi)
  {
    if lo > hi {
      BytesStep(n, w);
      assert w % 256 in Bytes(n, w);
    } else if hi - lo < 128 {
      NarrowRangeCorrect(n, w, lo, hi);
    } else if n >= 4 {
      WideRangeCorrect(n, w, lo, hi);
    } else {
      WideRangeOnNarrowWord(n, w, lo, hi);
      AnyByteFits(n, w);
    }
  }

  lemma {:induction false} AnyByteFits(n: nat, w: nat)
    ensures AllBytesIn(n, w, 0, 255)
  {
    if n > 0 {
      AnyByteFits(n - 1, w / 256);
      AllBytesInStep(n, w, 0, 255);
    }
  }

  lemma {:induction false} FillBytes(n: nat, a: nat)
    requires a < 256
    ensures 0 <= Fill(n, a) && forall b :: b in Bytes(n, Fill(n, a)) ==> b == a
  {
    if n > 0 {
      FillBytes(n - 1, a);
      SplitByte(Fill(n, a), a, Fill(n - 1, a));
      BytesStep(n, Fill(n, a));
    }
  }
}
