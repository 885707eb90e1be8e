/** Bits::CountOnes and CountOnes64 of gbase/bits.h: counting the bits of a word by adding ever larger fields of it
side by side. The reference is Ones of Bitwise, which adds the bits one by one.
*/
module SidewaysAddition {

  import opened Bitwise
  import ByteWords

  // ----- the code

  /** The second step and the third step of the code. */
  function JoinPairs(x: nat, mask: nat): nat { And(x / 4, mask) + And(x, mask) }
  function JoinNibbles(y: nat, mask: nat): nat { And(y + y / 16, mask) }

  /** Fields of 2, 4 and 8 bits, and then all bytes added into the top byte by one multiplication. `word` is the
      number of words and `top` the weight of the top byte. */
  function AddSideways(n: nat, every2: nat, every4: nat, every8: nat, ones: nat, word: nat, top: nat): nat
    requires word > 0 && top > 0
  {
    AndBound(n / 2, every2);
    var pairs := n - And(n / 2, every2);
    JoinNibbles(JoinPairs(pairs, every4), every8) * ones % word / top
  }

  function CountOnes(n: nat): nat {
    AddSideways(n, 0x5555_5555, 0x3333_3333, 0x0F0F_0F0F, 0x0101_0101, 0x1_0000_0000, 0x100_0000)
  }

  function CountOnes64(n: nat): nat {
    AddSideways(n, 0x5555_5555_5555_5555, 0x3333_3333_3333_3333, 0x0F0F_0F0F_0F0F_0F0F, 0x0101_0101_0101_0101,
                0x1_0000_0000_0000_0000, 0x100_0000_0000_0000)
  }

  /** The other form of CountOnes64, for machines that are not x86-64. */
  function CountOnes64Portable(n: nat): nat {
    CountOnes(n / 0x1_0000_0000) + CountOnes(n % 0x1_0000_0000)
  }

  // ----- masks and packed counts of m fields

  function Every2(m: nat): nat { if m == 0 then 0 else 4 * Every2(m - 1) + 1 }
  function Every4(m: nat): nat { if m == 0 then 0 else 16 * Every4(m - 1) + 3 }
  function Every8(m: nat): nat { if m == 0 then 0 else 256 * Every8(m - 1) + 15 }
  function EveryByte(m: nat): nat { if m == 0 then 0 else 256 * EveryByte(m - 1) + 1 }

  /** The number of one bits of each field of 2 bits, in that field; and so on. */
  function Pairs(m: nat, n: nat): nat { if m == 0 then 0 else 4 * Pairs(m - 1, n / 4) + Ones(n % 4) }
  function Nibbles(m: nat, n: nat): nat { if m == 0 then 0 else 16 * Nibbles(m - 1, n / 16) + Ones(n % 16) }
  function Bytes(m: nat, n: nat): nat { if m == 0 then 0 else 256 * Bytes(m - 1, n / 256) + Ones(n % 256) }

  // ----- small fields

  lemma And4(x: nat, a: nat, y: nat, b: nat)
    requires a < 4 && b < 4
    ensures And(4 * x + a, 4 * y + b) == 4 * And(x, y) + And(a, b)
  {
    Shift2(x);
    Shift2(y);
    Shift2(And(x, y));
    hide Shift, Pow2, And;
    AndJoin(2, a, x, b, y);
  }

  lemma And16(x: nat, a: nat, y: nat, b: nat)
    requires a < 16 && b < 16
    ensures And(16 * x + a, 16 * y + b) == 16 * And(x, y) + And(a, b)
  {
    Shift4(x);
    Shift4(y);
    Shift4(And(x, y));
    hide Shift, Pow2, And;
    AndJoin(4, a, x, b, y);
  }

  lemma And256(x: nat, a: nat, y: nat, b: nat)
    requires a < 256 && b < 256
    ensures And(256 * x + a, 256 * y + b) == 256 * And(x, y) + And(a, b)
  {
    Shift8(x);
    Shift8(y);
    Shift8(And(x, y));
    hide Shift, Pow2, And;
    AndJoin(8, a, x, b, y);
  }

  /** Masking the low k bits of 2^k * x + a. */
  lemma LowPair(x: nat, a: nat)
    requires a < 4
    ensures And(4 * x + a, 3) == a
  {
    Shift2(x);
    AndLowBits(2, a, x);
  }

  lemma LowNibble(x: nat, a: nat)
    requires a < 16
    ensures And(16 * x + a, 15) == a
  {
    Shift4(x);
    AndLowBits(4, a, x);
  }

  lemma LowBit(c: nat)
    requires c < 4
    ensures And(c, 1) == c % 2
  {
    Shift2(0);
    assert Shift(1, c / 2) == 2 * (c / 2) && Pow2(1) == 2;
    AndLowBits(1, c % 2, c / 2);
  }

  // ----- the first three steps

  lemma HalfOf(n: nat)
    ensures n / 2 == 4 * (n / 4 / 2) + (2 * (n / 4 % 2) + n % 4 / 2)
  {
  }

  lemma PairFromBits(n: nat, mask: nat)
    ensures And(n / 2, 4 * mask + 1) == 4 * And(n / 4 / 2, mask) + n % 4 / 2
  {
    hide And;
    HalfOf(n);
    var u, v, f := n / 4 / 2, n / 4 % 2, n % 4 / 2;
    And4(u, 2 * v + f, mask, 1);
    LowBit(2 * v + f);
  }

  lemma {:induction false} PairsAre(m: nat, n: nat)
    requires n < Pow2(2 * m)
    ensures And(n / 2, Every2(m)) <= n && n - And(n / 2, Every2(m)) == Pairs(m, n)
  {
    if m > 0 {
      assert Pow2(2 * m) == 2 * Pow2(2 * m - 1) == 4 * Pow2(2 * (m - 1));
      PairsAre(m - 1, n / 4);
      hide And, Ones, Pow2;
      PairFromBits(n, Every2(m - 1));
      OnesOfPair(n % 4);
      assert n == 4 * (n / 4) + n % 4;
    }
  }

  lemma QuarterOf(h: nat, b: nat, a: nat)
    requires a < 4 && b < 4
    ensures (16 * h + 4 * b + a) / 4 == 16 * (h / 4) + (4 * (h % 4) + b)
  {
    DivModUnique(16 * h + 4 * b + a, 4, 4 * h + b, a);
  }

  lemma NibbleFromPairs(h: nat, b: nat, a: nat, mask: nat)
    requires a < 4 && b < 4
    ensures JoinPairs(16 * h + 4 * b + a, 16 * mask + 3) == 16 * JoinPairs(h, mask) + a + b
  {
    hide And;
    QuarterOf(h, b, a);
    var u, v := h / 4, h % 4;
    And16(u, 4 * v + b, mask, 3);
    And16(h, 4 * b + a, mask, 3);
    LowPair(v, b);
    LowPair(b, a);
  }

  lemma PairsStep(m: nat, n: nat)
    requires m > 0
    ensures Pairs(m, n) == 4 * Pairs(m - 1, n / 4) + Ones(n % 4)
  {
  }

  lemma TwoPairs(k: nat, n: nat, n': nat, n'': nat)
    requires k >= 2 && n' == n / 4 && n'' == n' / 4
    ensures Pairs(k, n) == 16 * Pairs(k - 2, n'') + 4 * Ones(n' % 4) + Ones(n % 4)
  {
    hide Pairs, Ones;
    PairsStep(k, n);
    PairsStep(k - 1, n');
  }

  lemma QuarterTwice(n: nat)
    ensures n / 4 / 4 == n / 16
  {
  }

  /** Digits of digits. */
  lemma DigitsOf(n: nat, d: nat, r: nat)
    requires d > 0 && r == n % (d * d) && d * d > 0
    ensures r % d == n % d && 0 <= r / d == n / d % d
  {
    var k := n / (d * d);
    assert n == (d * d) * k + r;
    var q, low := r / d, r % d;
    assert r == d * q + low;
    DivBelow(r, d, d);
    assert (d * d) * k == d * (d * k);
    assert n == (d * k + q) * d + low;
    DivModUnique(n, d, d * k + q, low);
    DivModUnique(d * k + q, d, k, q);
  }

  lemma PairsSplit(m: nat, n: nat)
    requires m > 0
    ensures Pairs(2 * m, n) == 16 * Pairs(2 * (m - 1), n / 16) + 4 * Ones(n / 4 % 4) + Ones(n % 4)
    ensures Ones(n % 16) == Ones(n / 4 % 4) + Ones(n % 4) && Ones(n / 4 % 4) <= 2 && Ones(n % 4) <= 2
  {
    hide Pairs, Ones;
    QuarterTwice(n);
    TwoPairs(2 * m, n, n / 4, n / 16);
    DigitsOf(n, 4, n % 16);
    OnesOfNibble(n % 16);
    OnesOfPair(n % 4);
    OnesOfPair(n / 4 % 4);
  }

  lemma {:induction false} NibblesAre(m: nat, n: nat)
    ensures JoinPairs(Pairs(2 * m, n), Every4(m)) == Nibbles(m, n)
  {
    if m > 0 {
      hide Pairs, Ones, JoinPairs;
      NibblesAre(m - 1, n / 16);
      PairsSplit(m, n);
      NibbleFromPairs(Pairs(2 * (m - 1), n / 16), Ones(n / 4 % 4), Ones(n % 4), Every4(m - 1));
    }
  }

  lemma ByteFromNibbles(h: nat, b: nat, a: nat, mask: nat)
    requires a <= 4 && b <= 4 && h % 16 <= 4
    ensures JoinNibbles(256 * h + 16 * b + a, 256 * mask + 15) == 256 * JoinNibbles(h, mask) + a + b
  {
    var y, c := 256 * h + 16 * b + a, b + h % 16;
    assert y / 16 == 16 * h + b;
    assert y + y / 16 == 256 * (h + h / 16) + (16 * c + (a + b));
    And256(h + h / 16, 16 * c + (a + b), mask, 15);
    LowNibble(c, a + b);
  }

  lemma LastNibble(m: nat, n: nat)
    ensures Nibbles(m, n) % 16 <= 4
  {
    if m > 0 {
      NibblesStep(m, n);
      OnesOfNibble(n % 16);
      hide Nibbles, Ones;
      DivModUnique(Nibbles(m, n), 16, Nibbles(m - 1, n / 16), Ones(n % 16));
    }
  }

  lemma NibblesSplit(m: nat, n: nat)
    requires m > 0
    ensures Nibbles(2 * m, n) == 256 * Nibbles(2 * (m - 1), n / 256) + 16 * Ones(n / 16 % 16) + Ones(n % 16)
  {
    hide Nibbles, Ones;
    DivTwice(n);
    TwoNibbles(2 * m, n, n / 16, n / 256);
  }

  lemma TwoNibbles(k: nat, n: nat, n': nat, n'': nat)
    requires k >= 2 && n' == n / 16 && n'' == n' / 16
    ensures Nibbles(k, n) == 256 * Nibbles(k - 2, n'') + 16 * Ones(n' % 16) + Ones(n % 16)
  {
    hide Nibbles, Ones;
    NibblesStep(k, n);
    NibblesStep(k - 1, n');
  }

  lemma DivTwice(n: nat)
    ensures n / 16 / 16 == n / 256
  {
  }

  lemma NibblesStep(m: nat, n: nat)
    requires m > 0
    ensures Nibbles(m, n) == 16 * Nibbles(m - 1, n / 16) + Ones(n % 16)
  {
  }

  lemma ByteSplit(n: nat)
    ensures Ones(n % 256) == Ones(n / 16 % 16) + Ones(n % 16) && Ones(n / 16 % 16) <= 4 && Ones(n % 16) <= 4
  {
    hide Ones;
    DigitsOf(n, 16, n % 256);
    OnesOfByte(n % 256);
    OnesOfNibble(n % 16);
    OnesOfNibble(n / 16 % 16);
  }

  lemma {:induction false} BytesAre(m: nat, n: nat)
    ensures JoinNibbles(Nibbles(2 * m, n), Every8(m)) == Bytes(m, n)
  {
    if m > 0 {
      hide Nibbles, Ones, JoinNibbles;
      BytesAre(m - 1, n / 256);
      LastNibble(2 * (m - 1), n / 256);
      NibblesSplit(m, n);
      ByteSplit(n);
      ByteFromNibbles(Nibbles(2 * (m - 1), n / 256), Ones(n / 16 % 16), Ones(n % 16), Every8(m - 1));
    }
  }

  // ----- the multiplication

  /** The running sums of the bytes of Bytes(m, n), from the lowest on, each on top of c. */
  function Sums(m: nat, n: nat, c: nat): nat {
    if m == 0 then 0
    else
      var first := c + Ones(n % 256);
      first + 256 * Sums(m - 1, n / 256, first)
  }

  lemma {:induction false} EveryByteOnTop(m: nat)
    ensures EveryByte(m + 1) == ByteWords.Size(m) + EveryByte(m)
  {
    if m > 0 {
      EveryByteOnTop(m - 1);
    }
  }

  lemma Scale(k: nat, a: nat, b: nat)
    ensures (k * a) * b == k * (a * b) == a * (k * b)
  {
  }

  lemma TimesMask(a: nat, e: nat)
    ensures a * (256 * e + 1) == 256 * (a * e) + a
  {
    Distribute(a, 256 * e, 1);
    Scale(256, a, e);
  }

  lemma Carry(x: nat, f: nat, e: nat, w: nat, s: nat, k: nat)
    requires 256 * e + 1 == w + e && (x + f) * e == s + k * w
    ensures (256 * x + f) * (256 * e + 1) == (f + 256 * s) + (k + x) * (256 * w)
  {
    var xe, fe, xw, kw := x * e, f * e, x * w, k * w;
    assert 256 * xe + x == xw + xe by {
      TimesMask(x, e);
      Distribute(x, w, e);
    }
    assert xe + fe == s + kw by {
      Distribute(e, x, f);
    }
    assert (256 * x + f) * (256 * e + 1) == 256 * (256 * xe + fe) + (256 * x + f) by {
      TimesMask(256 * x + f, e);
      Distribute(e, 256 * x, f);
      Scale(256, x, e);
    }
    assert (k + x) * (256 * w) == 256 * (kw + xw) by {
      Scale(256, k + x, w);
      Distribute(w, k, x);
    }
  }

  /** The product holds the running sums, but for whole words. */
  lemma {:induction false} ProductIsSums(m: nat, n: nat, c: nat) returns (k: nat)
    ensures (Bytes(m, n) + c) * EveryByte(m) == Sums(m, n, c) + k * ByteWords.Size(m)
  {
    if m == 0 {
      k := 0;
    } else {
      var x, f, e, w := Bytes(m - 1, n / 256), c + Ones(n % 256), EveryByte(m - 1), ByteWords.Size(m - 1);
      var s := Sums(m - 1, n / 256, f);
      EveryByteOnTop(m - 1);
      var k' := ProductIsSums(m - 1, n / 256, f);
      assert Bytes(m, n) + c == 256 * x + f && EveryByte(m) == 256 * e + 1 && ByteWords.Size(m) == 256 * w;
      assert Sums(m, n, c) == f + 256 * s;
      hide *;
      Carry(x, f, e, w, s, k');
      k := k' + x;
    }
  }

  /** As long as the sums fit into bytes, the highest byte holds the sum of all. */
  lemma {:induction false} TopSum(m: nat, n: nat, c: nat)
    requires m > 0 && n < ByteWords.Size(m) && c + Ones(n) < 256
    ensures Sums(m, n, c) < ByteWords.Size(m) && Sums(m, n, c) / ByteWords.Size(m - 1) == c + Ones(n)
  {
    var f := c + Ones(n % 256);
    OnesOfRest(n);
    if m == 1 {
      TopOfOne(n, c);
    } else {
      TopSum(m - 1, n / 256, f);
      assert ByteWords.Size(m) == 256 * ByteWords.Size(m - 1) && ByteWords.Size(m - 1) == 256 * ByteWords.Size(m - 2);
      var s, w := Sums(m - 1, n / 256, f), ByteWords.Size(m - 2);
      assert Sums(m, n, c) == f + 256 * s;
      hide *;
      CutLow(s, w, f);
    }
  }

  lemma TopOfOne(n: nat, c: nat)
    requires n < ByteWords.Size(1) && c + Ones(n) < 256
    ensures Sums(1, n, c) < ByteWords.Size(1) && Sums(1, n, c) / ByteWords.Size(0) == c + Ones(n)
  {
    assert ByteWords.Size(0) == 1 && ByteWords.Size(1) == 256;
    assert n % 256 == n;
    hide Ones;
    assert Sums(0, n / 256, c + Ones(n)) == 0;
  }

  lemma CutLow(s: nat, w: nat, f: nat)
    requires w > 0 && f < 256
    ensures (f + 256 * s) / (256 * w) == s / w
  {
    var q, r := s / w, s % w;
    assert s == w * q + r;
    Scale(256, w, q);
    assert f + 256 * s == q * (256 * w) + (256 * r + f);
    DivModUnique(f + 256 * s, 256 * w, q, 256 * r + f);
  }

  lemma OnesOfRest(n: nat)
    ensures Ones(n) == Ones(n % 256) + Ones(n / 256)
  {
    Shift8(n / 256);
    OnesJoin(8, n % 256, n / 256);
  }

  // ----- the whole

  lemma {:induction false} FewOnes(m: nat, n: nat)
    requires n < ByteWords.Size(m)
    ensures Ones(n) <= 8 * m
  {
    if m > 0 {
      FewOnes(m - 1, n / 256);
      OnesOfRest(n);
      OnesOfByte(n % 256);
    }
  }

  lemma SidewaysIs(n: nat, e2: nat, e4: nat, e8: nat, ones: nat, word: nat, top: nat, pairs: nat, nibbles: nat, bytes: nat)
    requires word > 0 && top > 0 && And(n / 2, e2) <= n && n - And(n / 2, e2) == pairs
    requires JoinPairs(pairs, e4) == nibbles && JoinNibbles(nibbles, e8) == bytes
    ensures AddSideways(n, e2, e4, e8, ones, word, top) == bytes * ones % word / top
  {
    hide And;
  }

  /** All steps together, for words of up to 31 bytes. */
  lemma AddsUp(m: nat, n: nat)
    requires 0 < m < 32 && n < ByteWords.Size(m)
    ensures AddSideways(n, Every2(4 * m), Every4(2 * m), Every8(m), EveryByte(m), ByteWords.Size(m), ByteWords.Size(m - 1)) == Ones(n)
  {
    hide *;
    ByteWords.SizeIsPow2(m);
    assert 2 * (4 * m) == 8 * m && 2 * (2 * m) == 4 * m;
    FewOnes(m, n);
    PairsAre(4 * m, n);
    NibblesAre(2 * m, n);
    BytesAre(m, n);
    SidewaysIs(n, Every2(4 * m), Every4(2 * m), Every8(m), EveryByte(m), ByteWords.Size(m), ByteWords.Size(m - 1),
               Pairs(4 * m, n), Nibbles(2 * m, n), Bytes(m, n));
    TopByte(m, n);
  }

  lemma TopByte(m: nat, n: nat)
    requires m > 0 && n < ByteWords.Size(m) && Ones(n) < 256
    ensures Bytes(m, n) * EveryByte(m) % ByteWords.Size(m) / ByteWords.Size(m - 1) == Ones(n)
  {
    hide *;
    TopSum(m, n, 0);
    var k := ProductIsSums(m, n, 0);
    DivModUnique(Bytes(m, n) * EveryByte(m), ByteWords.Size(m), k, Sums(m, n, 0));
  }

  lemma Masks2()
    ensures Every2(16) == 0x5555_5555 && Every2(32) == 0x5555_5555_5555_5555
  {
    assert Every2(2) == 0x5;
    assert Every2(4) == 0x55;
    assert Every2(6) == 0x555;
    assert Every2(8) == 0x5555;
    assert Every2(10) == 0x55555;
    assert Every2(12) == 0x555555;
    assert Every2(14) == 0x5555555;
    assert Every2(16) == 0x55555555;
    assert Every2(18) == 0x555555555;
    assert Every2(20) == 0x5555555555;
    assert Every2(22) == 0x55555555555;
    assert Every2(24) == 0x555555555555;
    assert Every2(26) == 0x5555555555555;
    assert Every2(28) == 0x55555555555555;
    assert Every2(30) == 0x555555555555555;
  }

  lemma Masks4()
    ensures Every4(8) == 0x3333_3333 && Every4(16) == 0x3333_3333_3333_3333
  {
    assert Every4(2) == 0x33;
    assert Every4(4) == 0x3333;
    assert Every4(6) == 0x333333;
    assert Every4(8) == 0x33333333;
    assert Every4(10) == 0x3333333333;
    assert Every4(12) == 0x333333333333;
    assert Every4(14) == 0x33333333333333;
  }

  lemma Masks8()
    ensures Every8(4) == 0x0F0F_0F0F && Every8(8) == 0x0F0F_0F0F_0F0F_0F0F
  {
    assert Every8(2) == 0xf0f;
    assert Every8(4) == 0xf0f0f0f;
    assert Every8(6) == 0xf0f0f0f0f0f;
  }

  lemma MasksByte()
    ensures EveryByte(4) == 0x0101_0101 && EveryByte(8) == 0x0101_0101_0101_0101
  {
    assert EveryByte(2) == 0x101;
    assert EveryByte(4) == 0x1010101;
    assert EveryByte(6) == 0x10101010101;
  }

  lemma Words()
    ensures ByteWords.Size(4) == 0x1_0000_0000 && ByteWords.Size(3) == 0x100_0000
    ensures ByteWords.Size(8) == 0x1_0000_0000_0000_0000 && ByteWords.Size(7) == 0x100_0000_0000_0000
  {
    assert ByteWords.Size(2) == 0x10000;
    assert ByteWords.Size(4) == 0x100000000;
    assert ByteWords.Size(6) == 0x1000000000000;
  }

  lemma Masks()
    ensures Every2(16) == 0x5555_5555 && Every4(8) == 0x3333_3333 && Every8(4) == 0x0F0F_0F0F
    ensures EveryByte(4) == 0x0101_0101 && ByteWords.Size(4) == 0x1_0000_0000 && ByteWords.Size(3) == 0x100_0000
    ensures Every2(32) == 0x5555_5555_5555_5555 && Every4(16) == 0x3333_3333_3333_3333
    ensures Every8(8) == 0x0F0F_0F0F_0F0F_0F0F && EveryByte(8) == 0x0101_0101_0101_0101
    ensures ByteWords.Size(8) == 0x1_0000_0000_0000_0000 && ByteWords.Size(7) == 0x100_0000_0000_0000
  {
    hide *;
    Masks2();
    Masks4();
    Masks8();
    MasksByte();
    Words();
  }

  /** For every word of 32 bits the result is the number of its one bits. */
  lemma CountOnesIsRight(n: nat)
    requires n < 0x1_0000_0000
    ensures CountOnes(n) == Ones(n)
  {
    CountOnesIs(n);
    hide *;
    Masks();
    AddsUp(4, n);
  }

  lemma CountOnesIs(n: nat)
    ensures CountOnes(n) ==
            AddSideways(n, 0x5555_5555, 0x3333_3333, 0x0F0F_0F0F, 0x0101_0101, 0x1_0000_0000, 0x100_0000)
  {
    hide AddSideways;
  }

  lemma CountOnes64Is(n: nat)
    ensures CountOnes64(n) ==
            AddSideways(n, 0x5555_5555_5555_5555, 0x3333_3333_3333_3333, 0x0F0F_0F0F_0F0F_0F0F, 0x0101_0101_0101_0101,
                        0x1_0000_0000_0000_0000, 0x100_0000_0000_0000)
  {
    hide AddSideways;
  }

  /** And for every word of 64 bits. */
  lemma CountOnes64IsRight(n: nat)
    requires n < 0x1_0000_0000_0000_0000
    ensures CountOnes64(n) == Ones(n)
  {
    CountOnes64Is(n);
    hide *;
    Masks();
    AddsUp(8, n);
  }

  lemma HalfWords(n: nat)
    requires n < 0x1_0000_0000_0000_0000
    ensures 0 <= n / 0x1_0000_0000 < 0x1_0000_0000
    ensures Ones(n) == Ones(n % 0x1_0000_0000) + Ones(n / 0x1_0000_0000)
  {
    hide Ones, Pow2, Shift;
    Pow2At32();
    ShiftIsTimesPow2(32, n / 0x1_0000_0000);
    OnesJoin(32, n % 0x1_0000_0000, n / 0x1_0000_0000);
  }

  /** Both forms of CountOnes64 agree. */
  lemma PortableAgrees(n: nat)
    requires n < 0x1_0000_0000_0000_0000
    ensures CountOnes64Portable(n) == CountOnes64(n)
  {
    hide AddSideways, Ones, CountOnes, CountOnes64;
    HalfWords(n);
    CountOnesIsRight(n % 0x1_0000_0000);
    CountOnesIsRight(n / 0x1_0000_0000);
    CountOnes64IsRight(n);
  }
}
