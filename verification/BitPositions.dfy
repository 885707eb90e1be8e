/** gbase/bits.cc: the portable binary logarithms and the position of the lowest set bit, for words of 32 bits. */
module BitPositions {

  import opened Bitwise

  /** The position of the highest set bit. */
  ghost predicate IsFloorLog(n: nat, log: int) {
    if n == 0 then log == -1 else 0 <= log < 32 && Pow2(log) <= n < Pow2(log + 1)
  }

  /** value is n shifted right by log. */
  ghost predicate Shifted(n: nat, value: nat, log: nat) { Between(n, value, Pow2(log)) }

  /** value is the quotient of n by p. */
  ghost predicate Between(n: nat, value: nat, p: nat) { value * p <= n < (value + 1) * p }

  lemma Reorder(x: nat, p: nat, q: nat)
    ensures x * (p * q) == (x * q) * p
  {
    assert p * q == q * p;
    assert x * (q * p) == (x * q) * p;
  }

  lemma QuotientBounds(value: nat, q: nat)
    requires q > 0
    ensures value / q * q <= value < (value / q + 1) * q
  {
    assert value == q * (value / q) + value % q;
    assert (value / q + 1) * q == value / q * q + q;
  }

  lemma LowerOn(n: nat, value: nat, x: nat, p: nat, q: nat)
    requires value * p <= n && x * q <= value
    ensures x * (p * q) <= n
  {
    MulMono(x * q, value, p);
    Reorder(x, p, q);
  }

  lemma UpperOn(n: nat, value: nat, x: nat, p: nat, q: nat)
    requires n < value * p && value <= x * q
    ensures n < x * (p * q)
  {
    MulMono(value, x * q, p);
    Reorder(x, p, q);
  }

  lemma BetweenOn(n: nat, value: nat, x: nat, p: nat, q: nat)
    requires Between(n, value, p) && q > 0 && x == value / q
    ensures Between(n, x, p * q)
  {
    QuotientBounds(value, q);
    LowerOn(n, value, x, p, q);
    UpperOn(n, value + 1, x + 1, p, q);
  }

  lemma ShiftOn(n: nat, value: nat, log: nat, shift: nat)
    requires Shifted(n, value, log)
    ensures Shifted(n, value / Pow2(shift), log + shift)
  {
    hide Between, Pow2;
    Pow2Add(log, shift);
    BetweenOn(n, value, value / Pow2(shift), Pow2(log), Pow2(shift));
  }

  lemma ZeroQuotient(value: nat, q: nat)
    requires q > 0 && value / q == 0
    ensures value < q
  {
    QuotientBounds(value, q);
  }

  lemma HalfOf(value: nat, q: nat)
    requires q > 0 && value < q * q
    ensures 0 <= value / q < q && (value / q == 0 ==> value < q)
  {
    DivBelow(value, q, q);
    if value / q == 0 {
      ZeroQuotient(value, q);
    }
  }

  /** Shifting a number of 2 * shift bits by shift leaves at most shift bits, and nothing if it had no more. */
  lemma HalfTheBits(value: nat, shift: nat)
    requires value < Pow2(2 * shift)
    ensures 0 <= value / Pow2(shift) < Pow2(shift)
    ensures value / Pow2(shift) == 0 ==> value < Pow2(shift)
  {
    Pow2Add(shift, shift);
    assert shift + shift == 2 * shift;
    HalfOf(value, Pow2(shift));
  }

  /** Binary search for the highest bit: 16 bits, then 8, and so on. */
  method Log2FloorPortable(n: nat) returns (log: int)
    requires n < 0x1_0000_0000
    ensures IsFloorLog(n, log)
  {
    if n == 0 {
      return -1;
    }
    log := 0;
    var value := n;
    assert Shifted(n, n, 0);
    Pow2At32();
    assert Pow2(5) == 32;
    var i := 4;
    while i >= 0
      invariant -1 <= i <= 4 && 0 <= log && value > 0
      invariant Shifted(n, value, log) && value < Pow2(Pow2(i + 1))
    {
      var shift := Pow2(i);
      var x := value / Pow2(shift);
      assert Pow2(i + 1) == 2 * shift;
      HalfTheBits(value, shift);
      if x != 0 {
        ShiftOn(n, value, log, shift);
        value := x;
        log := log + shift;
      }
      i := i - 1;
    }
    OneIsLeft(n, value, log);
  }

  lemma OneIsLeft(n: nat, value: nat, log: nat)
    requires n < Pow2(32) && 0 < value < Pow2(Pow2(0)) && Shifted(n, value, log)
    ensures IsFloorLog(n, log)
  {
    assert Pow2(0) == 1 && Pow2(1) == 2 && value == 1;
    assert Pow2(log) <= n < 2 * Pow2(log);
    if log >= 32 {
      Pow2Mono(32, log);
    }
  }

  // ----- powers of two

  /** n & ~(n - 1) in a word of the given width. */
  function LowestBit(width: nat, n: nat): nat
    requires n < Pow2(width)
  {
    And(n, Not(width, if n == 0 then Pow2(width) - 1 else n - 1))
  }

  lemma {:induction false} AndWithNot(width: nat, n: nat)
    requires n < Pow2(width)
    ensures And(n, Not(width, n)) == 0
  {
    if width > 0 {
      AndWithNot(width - 1, n / 2);
      assert Not(width, n) == 2 * Not(width - 1, n / 2) + (1 - n % 2);
      AndStep(n / 2, n % 2, Not(width - 1, n / 2), 1 - n % 2);
    }
  }

  ghost predicate IsPowerOfTwo(n: nat) { exists k: nat :: n == Pow2(k) }

  lemma PowerOfTwoHalves(n: nat)
    requires n > 0 && n % 2 == 0
    ensures IsPowerOfTwo(n) <==> IsPowerOfTwo(n / 2)
  {
    if IsPowerOfTwo(n) {
      var k: nat :| n == Pow2(k);
      assert k > 0 && n / 2 == Pow2(k - 1);
    }
    if IsPowerOfTwo(n / 2) {
      var k: nat :| n / 2 == Pow2(k);
      assert n == Pow2(k + 1);
    }
  }

  /** The trick finds exactly zero and the powers of two. */
  lemma {:induction false} LowestBitIsAll(width: nat, n: nat)
    requires n < Pow2(width)
    ensures LowestBit(width, n) == n <==> n == 0 || IsPowerOfTwo(n)
  {
    if n > 0 {
      var h := n / 2;
      if n % 2 == 1 {
        OddLowestBit(width, n);
        if IsPowerOfTwo(n) {
          var k: nat :| n == Pow2(k);
          assert k == 0;
        }
        assert Pow2(0) == 1;
      } else {
        EvenLowestBit(width, n);
        LowestBitIsAll(width - 1, h);
        PowerOfTwoHalves(n);
      }
    }
  }

  lemma OddLowestBit(width: nat, n: nat)
    requires n < Pow2(width) && n % 2 == 1
    ensures LowestBit(width, n) == 1
  {
    var h := n / 2;
    assert Not(width, n - 1) == 2 * Not(width - 1, h) + 1;
    AndStep(h, 1, Not(width - 1, h), 1);
    AndWithNot(width - 1, h);
  }

  lemma EvenLowestBit(width: nat, n: nat)
    requires 0 < n < Pow2(width) && n % 2 == 0
    ensures width > 0 && n / 2 < Pow2(width - 1) && LowestBit(width, n) == 2 * LowestBit(width - 1, n / 2)
  {
    var h := n / 2;
    assert Not(width, n - 1) == 2 * Not(width - 1, h - 1);
    AndStep(h, 0, Not(width - 1, h - 1), 0);
  }

  /** The least power of two that is not below n. */
  ghost predicate IsCeilingLog(n: nat, log: int) {
    if n == 0 then log == -1 else 0 <= log <= 32 && n <= Pow2(log) && (log > 0 ==> Pow2(log - 1) < n)
  }

  method Log2Ceiling(n: nat) returns (log: int)
    requires n < 0x1_0000_0000
    ensures IsCeilingLog(n, log)
  {
    var floor := Log2FloorPortable(n);
    Pow2At32();
    LowestBitIsAll(32, n);
    hide LowestBit;
    if n == LowestBit(32, n) {
      FloorOfPower(n, floor);
      return floor;
    }
    NotAPower(n, floor);
    return floor + 1;
  }

  lemma FloorOfPower(n: nat, log: int)
    requires IsFloorLog(n, log) && (n == 0 || IsPowerOfTwo(n))
    ensures IsCeilingLog(n, log)
  {
    if n > 0 {
      var k: nat :| n == Pow2(k);
      if k > log {
        Pow2Mono(log + 1, k);
      } else if k < log {
        Pow2Mono(k + 1, log);
      }
    }
  }

  lemma NotAPower(n: nat, log: int)
    requires IsFloorLog(n, log) && n > 0 && !IsPowerOfTwo(n)
    ensures IsCeilingLog(n, log + 1)
  {
  }

  // ----- the lowest bit

  /** rc is the position of the lowest set bit of n. */
  ghost predicate IsLowest(n: nat, rc: nat) {
    n % Pow2(rc) == 0 && n / Pow2(rc) % 2 == 1
  }

  /** m is n times top inside the word, not zero and a multiple of clear. */
  ghost predicate Moved(n: nat, m: nat, top: nat, word: nat, clear: nat) {
    word > 0 && clear > 0 && m == n * top % word && m != 0 && m % clear == 0
  }

  /** m is n shifted left by 31 - rc inside 32 bits, not zero, and it has no bit below position `clear`. */
  ghost predicate Found(n: nat, m: nat, rc: int, clear: int) {
    0 <= rc <= 31 && 0 <= clear <= 32 && Moved(n, m, Pow2(31 - rc), Pow2(32), Pow2(clear))
  }

  /** n << shift in a uint32. */
  function ShiftLeft(n: nat, shift: nat): nat { n * Pow2(shift) % Pow2(32) }

  lemma ProductOfRemainder(a: nat, f: nat, m: nat)
    requires m > 0
    ensures (a % m) * f % m == a * f % m
  {
    var k, r := a / m, a % m;
    assert a == m * k + r;
    assert a * f == (k * f) * m + r * f by {
      assert (m * k + r) * f == (m * k) * f + r * f;
      assert (m * k) * f == (k * f) * m;
    }
    var x := r * f;
    assert x == (x / m) * m + x % m;
    assert a * f == (k * f + x / m) * m + x % m;
    DivModUnique(a * f, m, k * f + x / m, x % m);
  }

  /** A multiple of d times f is a multiple of d * f, also inside a word of d * f * e values. */
  lemma ClearGrows(m: nat, d: nat, f: nat, e: nat)
    requires d > 0 && f > 0 && e > 0 && m % d == 0
    ensures d * f > 0 && d * f * e > 0 && m * f % (d * f * e) % (d * f) == 0
  {
    var c := m / d;
    assert m == c * d;
    var p := d * f;
    assert m * f == c * p;
    ScaleInWord(c, p, e);
    assert p * e == d * f * e;
    DivModUnique((c % e) * p, p, c % e, 0);
  }

  lemma SwapFactors(g: nat, f: nat, k: nat)
    ensures (g * f) * k == (k * g) * f
  {
    assert (g * f) * k == k * (g * f);
    Reorder(k, f, g);
    assert f * g == g * f;
  }

  /** What a shift clears away completely was clear at the top. */
  lemma ClearAtTop(m: nat, f: nat, g: nat)
    requires f > 0 && g > 0 && g * f > 0 && m * f % (g * f) == 0
    ensures m % g == 0
  {
    var k := ExactQuotient(m * f, g * f);
    SwapFactors(g, f, k);
    Cancel(m, k * g, f);
    DivModUnique(m, g, k, 0);
  }

  lemma ExactQuotient(a: nat, d: nat) returns (k: nat)
    requires d > 0 && a % d == 0
    ensures a == d * k
  {
    k := a / d;
  }

  lemma Cancel(a: nat, b: nat, f: nat)
    requires f > 0 && a * f == b * f
    ensures a == b
  {
    if a < b {
      MulMono(a + 1, b, f);
    } else if b < a {
      MulMono(b + 1, a, f);
    }
  }

  lemma MovedFurther(n: nat, m: nat, top: nat, d: nat, f: nat)
    requires d > 0 && f > 0 && Moved(n, m, top, d * f * f, d) && m * f % (d * f * f) != 0
    ensures Moved(n, m * f % (d * f * f), top * f, d * f * f, d * f)
  {
    var word := d * f * f;
    ProductOfRemainder(n * top, f, word);
    Reorder(n, f, top);
    assert f * top == top * f;
    ClearGrows(m, d, f, f);
  }

  lemma NotMoved(n: nat, m: nat, top: nat, d: nat, f: nat)
    requires d > 0 && f > 0 && Moved(n, m, top, d * f * f, d) && m * f % (d * f * f) == 0
    ensures Moved(n, m, top, d * f * f, d * f)
  {
    ClearAtTop(m, f, d * f);
  }

  /** One step of the search finds its bit, or learns that there is none. */
  lemma FoundStep(n: nat, m: nat, rc: int, shift: nat)
    requires 0 < shift <= 16 && shift <= rc && Found(n, m, rc, 32 - 2 * shift)
    ensures var x := ShiftLeft(m, shift);
            if x != 0 then Found(n, x, rc - shift, 32 - shift) else Found(n, m, rc, 32 - shift)
  {
    Pow2Add(31 - rc, shift);
    Pow2Add(32 - 2 * shift, shift);
    Pow2Add(32 - shift, shift);
    hide Pow2, Moved;
    if ShiftLeft(m, shift) != 0 {
      MovedFurther(n, m, Pow2(31 - rc), Pow2(32 - 2 * shift), Pow2(shift));
    } else {
      NotMoved(n, m, Pow2(31 - rc), Pow2(32 - 2 * shift), Pow2(shift));
    }
  }

  lemma OnlyTop(m: nat, half: nat)
    requires 0 < m < 2 * half && m % half == 0
    ensures m == half
  {
    var k := ExactQuotient(m, half);
    if k > 1 {
      MulMono(2, k, half);
    }
  }

  lemma QuotientAndRest(a: nat, d: nat) returns (k: nat)
    requires d > 0
    ensures a == d * k + a % d
  {
    k := a / d;
  }

  /** If n times top is half a word, up to whole words, n is an odd multiple of what is left of the half word. */
  lemma OddMultiple(n: nat, top: nat, low: nat, half: nat)
    requires top > 0 && low > 0 && half == top * low && half > 0 && n * top % (2 * half) == half
    ensures n % low == 0 && n / low % 2 == 1
  {
    var k := QuotientAndRest(n * top, 2 * half);
    OddFactor(top, low, k);
    Cancel(n, (2 * k + 1) * low, top);
    DivModUnique(n, low, 2 * k + 1, 0);
  }

  lemma OddFactor(top: nat, low: nat, k: nat)
    ensures (2 * (top * low)) * k + top * low == ((2 * k + 1) * low) * top
  {
    var h := top * low;
    assert h == low * top;
    Reorder(2 * k + 1, top, low);
    assert (2 * k + 1) * h == (2 * h) * k + h;
  }

  /** Only the highest bit is left. */
  lemma FoundIt(n: nat, m: nat, rc: int)
    requires Found(n, m, rc, 31)
    ensures IsLowest(n, rc)
  {
    Pow2Add(31 - rc, rc);
    assert Pow2(32) == 2 * Pow2(31);
    hide Pow2;
    OnlyTop(m, Pow2(31));
    OddMultiple(n, Pow2(31 - rc), Pow2(rc), Pow2(31));
  }

  lemma SearchStarts(n: nat)
    requires 0 < n < 0x1_0000_0000
    ensures Found(n, n, 31, 0)
  {
    Pow2At32();
    assert Pow2(0) == 1 && n * 1 == n;
    DivModUnique(n, Pow2(32), 0, n);
  }

  /** Binary search for the lowest bit: the word is shifted left as long as something stays. */
  method FindLSBSetNonZeroPortable(n: nat) returns (rc: int)
    requires 0 < n < 0x1_0000_0000
    ensures 0 <= rc <= 31 && IsLowest(n, rc)
  {
    rc := 31;
    var m := n;
    SearchStarts(n);
    hide Found, IsLowest, ShiftLeft, Pow2;
    var i, shift := 4, 16;
    ghost var span := 32;
    while i >= 0
      invariant (i == 4 && shift == 16) || (i == 3 && shift == 8) || (i == 2 && shift == 4) || (i == 1 && shift == 2)
             || (i == 0 && shift == 1) || (i == -1 && shift == 0)
      invariant span == (if i >= 0 then 2 * shift else 1) && span <= rc + 1 <= 32
      invariant Found(n, m, rc, 32 - span)
    {
      FoundStep(n, m, rc, shift);
      var x := ShiftLeft(m, shift);
      if x != 0 {
        m := x;
        rc := rc - shift;
      }
      span := shift;
      shift := shift / 2;
      i := i - 1;
    }
    FoundIt(n, m, rc);
    FoundInRange(n, m, rc);
  }

  lemma FoundInRange(n: nat, m: nat, rc: int)
    requires Found(n, m, rc, 31)
    ensures 0 <= rc <= 31
  {
  }
}
