/** The unsigned 128-bit integer of gbase/int128.h: two 64-bit halves that refine arithmetic modulo 2^128.

Comparisons, negation and the free shift operators are functions on the pair of halves. The compound
assignment operators change the halves of an object in place; their argument is a reference, as in the
source, so that `x *= x` and its like are covered.
*/
module Wide {
  import opened Bitwise

  const B32: nat := 0x1_0000_0000
  const B64: nat := 0x1_0000_0000_0000_0000
  const B128: nat := 0x1_0000_0000_0000_0000_0000_0000_0000_0000

  type Word = x: nat | x < B64

  // ----- 64-bit machine operations

  function Add64(x: Word, y: Word): Word { (x + y) % B64 }
  function Sub64(x: Word, y: Word): Word { (x - y) % B64 }

  /** The wrapped product; Times is ordinary multiplication (TimesIsProduct). */
  function Mul64(x: Word, y: Word): Word { Times(x, y) % B64 }

  function Flip64(x: Word): Word { B64 - 1 - x }

  function Shl64(x: Word, n: nat): Word
    requires n < 64
  {
    (x * Pow2(n)) % B64
  }

  function Shr64(x: Word, n: nat): (r: Word)
    requires n < 64
  {
    DivShrinks(x, Pow2(n));
    x / Pow2(n)
  }

  function Or64(x: Word, y: Word): Word {
    Pow2At64();
    OrBound(64, x, y);
    Or(x, y)
  }

  // ----- values

  datatype U128 = U128(hi: Word, lo: Word) {
    function Value(): (v: nat)
      ensures v < B128
    {
      hi * B64 + lo
    }
  }

  /** Two values are the same number exactly when both halves agree. */
  lemma ValueInjective(a: U128, b: U128)
    ensures a.Value() == b.Value() <==> a == b
  {
  }

  /** The four comparison operators compare the high halves first. */
  predicate Less(a: U128, b: U128)
    ensures Less(a, b) <==> a.Value() < b.Value()
  {
    if a.hi == b.hi then a.lo < b.lo else a.hi < b.hi
  }

  predicate LessOrEqual(a: U128, b: U128)
    ensures LessOrEqual(a, b) <==> a.Value() <= b.Value()
  {
    if a.hi == b.hi then a.lo <= b.lo else a.hi <= b.hi
  }

  /** Unary minus: flip both halves, add one to the low half, carry when it wraps. */
  function Negate(a: U128): (r: U128)
    ensures r.Value() == (B128 - a.Value()) % B128
  {
    var hiFlip, loFlip := Flip64(a.hi), Flip64(a.lo);
    var loAdd := Add64(loFlip, 1);
    if loAdd < loFlip then U128(Add64(hiFlip, 1), loAdd) else U128(hiFlip, loAdd)
  }

  function ShiftLeft(a: U128, n: nat): (r: U128) {
    if n < 64 then
      if n == 0 then a
      else U128(Or64(Shl64(a.hi, n), Shr64(a.lo, 64 - n)), Shl64(a.lo, n))
    else if n < 128 then U128(Shl64(a.lo, n - 64), 0)
    else U128(0, 0)
  }

  function ShiftRight(a: U128, n: nat): (r: U128) {
    if n < 64 then
      if n == 0 then a
      else U128(Shr64(a.hi, n), Or64(Shr64(a.lo, n), Shl64(a.hi, 64 - n)))
    else if n < 128 then U128(0, Shr64(a.hi, n - 64))
    else U128(0, 0)
  }

  // ----- what the shifts compute

  /** 2^64 cut at bit n. */
  lemma CutWord(n: nat)
    requires n <= 64
    ensures Pow2(n) * Pow2(64 - n) == B64
  {
    Pow2Add(n, 64 - n);
    Pow2At64();
  }

  lemma ShlPieces(x: Word, n: nat)
    requires n < 64
    ensures Shl64(x, n) == (x % Pow2(64 - n)) * Pow2(n)
    ensures x * Pow2(n) == (x / Pow2(64 - n)) * B64 + Shl64(x, n)
  {
    CutWord(n);
    ScaleInWord(x, Pow2(n), Pow2(64 - n));
  }

  lemma QuotientBound(x: Word, n: nat)
    requires n <= 64
    ensures x / Pow2(64 - n) < Pow2(n)
  {
    CutWord(n);
    DivBelow(x, Pow2(64 - n), Pow2(n));
  }

  lemma OrOfParts(x: Word, y: Word, n: nat, high: nat)
    requires n < 64 && y < Pow2(n) && x == high * Pow2(n)
    ensures Or64(x, y) == x + y
  {
    hide Pow2, Or;
    OrDisjoint(n, high, y);
  }

  lemma ShiftLeftSmall(a: U128, n: nat)
    requires 0 < n < 64
    ensures ShiftLeft(a, n).hi == Shl64(a.hi, n) + a.lo / Pow2(64 - n)
    ensures ShiftLeft(a, n).lo == Shl64(a.lo, n)
  {
    hide Pow2, Or64, Shl64;
    ShlPieces(a.hi, n);
    QuotientBound(a.lo, n);
    OrOfParts(Shl64(a.hi, n), Shr64(a.lo, 64 - n), n, a.hi % Pow2(64 - n));
  }

  /** Two halves scaled by p: what leaves the low half enters the high one, what leaves the high one is lost. */
  lemma ScaleHalves(hi: nat, lo: nat, p: nat, hiOut: nat, hiKept: nat, loOut: nat, loKept: nat)
    requires hi * p == hiOut * B64 + hiKept && lo * p == loOut * B64 + loKept
    requires loKept < B64 && hiKept + loOut < B64
    ensures ((hi * B64 + lo) * p) % B128 == (hiKept + loOut) * B64 + loKept
  {
    ScaleSum(hi, lo, B64, p);
    DivModUnique((hi * B64 + lo) * p, B128, hiOut, (hiKept + loOut) * B64 + loKept);
  }

  lemma ShiftLeftBelow64(a: U128, n: nat, r: U128)
    requires 0 < n < 64
    requires r.hi == Shl64(a.hi, n) + a.lo / Pow2(64 - n) && r.lo == Shl64(a.lo, n)
    ensures r.Value() == (a.Value() * Pow2(n)) % B128
  {
    ShlPieces(a.hi, n);
    ShlPieces(a.lo, n);
    ScaleHalves(a.hi, a.lo, Pow2(n), a.hi / Pow2(64 - n), Shl64(a.hi, n), a.lo / Pow2(64 - n), Shl64(a.lo, n));
  }

  /** Scaling by p * 2^64 keeps only what the low half leaves inside one word. */
  lemma ScaleByWords(hi: nat, lo: nat, p: nat, out: nat, kept: nat)
    requires lo * p == out * B64 + kept && kept < B64
    ensures ((hi * B64 + lo) * (p * B64)) % B128 == kept * B64
  {
    ScaleSum(hi, lo, B64, p);
    var v := hi * B64 + lo;
    assert v * (p * B64) == (v * p) * B64;
    DivModUnique((v * p) * B64, B128, hi * p + out, kept * B64);
  }

  lemma WordsAndBits(n: nat)
    requires n >= 64
    ensures Pow2(n) == Pow2(n - 64) * B64
  {
    Pow2Add(n - 64, 64);
    Pow2At64();
  }

  lemma ShiftLeftBelow128(a: U128, n: nat)
    requires 64 <= n < 128
    ensures ShiftLeft(a, n).Value() == (a.Value() * Pow2(n)) % B128
  {
    var s := Pow2(n - 64);
    WordsAndBits(n);
    ShlPieces(a.lo, n - 64);
    ScaleByWords(a.hi, a.lo, s, a.lo / Pow2(128 - n), Shl64(a.lo, n - 64));
  }

  lemma MultipleOfB128(v: nat, k: nat)
    ensures (v * (k * B128)) % B128 == 0
  {
    assert v * (k * B128) == (v * k) * B128;
    DivModUnique((v * k) * B128, B128, v * k, 0);
  }

  /** `<<` is multiplication by 2^n modulo 2^128, for every n. */
  lemma ShiftLeftValue(a: U128, n: nat)
    ensures ShiftLeft(a, n).Value() == (a.Value() * Pow2(n)) % B128
  {
    if n < 64 {
      ShiftLeftWithin(a, n);
    } else if n < 128 {
      ShiftLeftBelow128(a, n);
    } else {
      ShiftLeftAll(a, n);
    }
  }

  lemma ShiftLeftWithin(a: U128, n: nat)
    requires n < 64
    ensures ShiftLeft(a, n).Value() == (a.Value() * Pow2(n)) % B128
  {
    if n == 0 {
      assert Pow2(0) == 1;
    } else {
      ShiftLeftSmall(a, n);
      ShiftLeftBelow64(a, n, ShiftLeft(a, n));
    }
  }

  lemma ShiftLeftAll(a: U128, n: nat)
    requires n >= 128
    ensures ShiftLeft(a, n).Value() == (a.Value() * Pow2(n)) % B128
  {
    Pow2Add(n - 128, 128);
    Pow2At128();
    MultipleOfB128(a.Value(), Pow2(n - 128));
  }

  lemma ShiftRightSmall(a: U128, n: nat)
    requires 0 < n < 64
    ensures ShiftRight(a, n).lo == a.lo / Pow2(n) + (a.hi % Pow2(n)) * Pow2(64 - n)
  {
    ShlPieces(a.hi, 64 - n);
    QuotientBound(a.lo, 64 - n);
    OrDisjoint(64 - n, a.hi % Pow2(n), a.lo / Pow2(n));
  }

  /** Dividing two halves by p, where p * q fills a word: the remainder of the high half enters the low one. */
  lemma DivideHalves(hi: nat, lo: nat, p: nat, q: nat, hd: nat, hm: nat, ld: nat, lm: nat)
    requires p > 0 && p * q == B64
    requires hi == hd * p + hm && lo == ld * p + lm && lm < p
    ensures (hi * B64 + lo) / p == hd * B64 + (ld + hm * q)
  {
    assert (hm * q) * p == hm * B64;
    ScaleSum(hd, ld + hm * q, B64, p);
    assert (ld + hm * q) * p == ld * p + (hm * q) * p;
    DivModUnique(hi * B64 + lo, p, hd * B64 + (ld + hm * q), lm);
  }

  lemma ShiftRightBelow64(a: U128, n: nat, r: U128)
    requires 0 < n < 64
    requires r.hi == a.hi / Pow2(n) && r.lo == a.lo / Pow2(n) + (a.hi % Pow2(n)) * Pow2(64 - n)
    ensures r.Value() == a.Value() / Pow2(n)
  {
    CutWord(n);
    ShiftRightHalves(a, Pow2(n), Pow2(64 - n), r);
  }

  lemma ShiftRightHalves(a: U128, p: nat, q: nat, r: U128)
    requires p > 0 && p * q == B64
    requires r.hi == a.hi / p && r.lo == a.lo / p + (a.hi % p) * q
    ensures r.Value() == a.Value() / p
  {
    DivModParts(a.hi, p);
    DivModParts(a.lo, p);
    DivideHalves(a.hi, a.lo, p, q, a.hi / p, a.hi % p, a.lo / p, a.lo % p);
  }

  lemma DivideByWords(hi: nat, lo: nat, p: nat, hd: nat, hm: nat)
    requires p > 0 && hi == hd * p + hm && hm < p && lo < B64
    ensures (hi * B64 + lo) / (p * B64) == hd
  {
    assert hd * (p * B64) == (hd * p) * B64;
    DivModUnique(hi * B64 + lo, p * B64, hd, hm * B64 + lo);
  }

  lemma ShiftRightBelow128(a: U128, n: nat, r: U128)
    requires 64 <= n < 128
    requires r.hi == 0 && r.lo == a.hi / Pow2(n - 64)
    ensures r.Value() == a.Value() / Pow2(n)
  {
    var s := Pow2(n - 64);
    WordsAndBits(n);
    DivModParts(a.hi, s);
    DivideByWords(a.hi, a.lo, s, a.hi / s, a.hi % s);
  }

  /** `>>` is floor division by 2^n, for every n. */
  lemma ShiftRightValue(a: U128, n: nat)
    ensures ShiftRight(a, n).Value() == a.Value() / Pow2(n)
  {
    if n == 0 {
      assert Pow2(0) == 1;
    } else if n < 64 {
      ShiftRightSmall(a, n);
      ShiftRightBelow64(a, n, ShiftRight(a, n));
    } else if n < 128 {
      ShiftRightBelow128(a, n, ShiftRight(a, n));
    } else {
      Pow2Mono(128, n);
      Pow2At128();
      DivModUnique(a.Value(), Pow2(n), 0, a.Value());
    }
  }

  // ----- the schoolbook product

  function Low32(x: Word): (r: Word)
    ensures r == x % B32
  {
    Low32Keeps(x);
    And(x, 0xffff_ffff)
  }

  lemma Low32Keeps(x: Word)
    ensures And(x, 0xffff_ffff) == x % B32
  {
    Pow2At32();
    ShiftIsTimesPow2(32, x / B32);
    AndLowBits(32, x % B32, x / B32);
  }

  function High32(x: Word): (r: Word)
    ensures r == x / B32
  {
    Pow2At32();
    Shr64(x, 32)
  }

  /** A number written with four 32-bit digits. */
  datatype Quad = Quad(d96: Word, d64: Word, d32: Word, d00: Word) {
    predicate Small() { d96 < B32 && d64 < B32 && d32 < B32 && d00 < B32 }
    function Value(): nat { Digits(d96, d64, d32, d00) }
  }

  function Digits(d96: nat, d64: nat, d32: nat, d00: nat): nat {
    d96 * (B32 * B64) + d64 * B64 + d32 * B32 + d00
  }

  function SplitDigits(v: U128): (q: Quad)
    ensures q.Small() && q.Value() == v.Value()
  {
    Quad(High32(v.hi), Low32(v.hi), High32(v.lo), Low32(v.lo))
  }

  /** The column of products that start at bit 96, modulo 2^64. */
  function C96(x: Quad, y: Quad): Word {
    Add64(Add64(Add64(Mul64(x.d96, y.d00), Mul64(x.d64, y.d32)), Mul64(x.d32, y.d64)), Mul64(x.d00, y.d96))
  }

  /** The column of products that start at bit 64, modulo 2^64. */
  function C64(x: Quad, y: Quad): Word {
    Add64(Add64(Mul64(x.d64, y.d00), Mul64(x.d32, y.d32)), Mul64(x.d00, y.d64))
  }

  /** The high half before the lower products are added. */
  function UpperHalf(c96: Word, c64: Word): (h: Word)
    ensures h == ((c96 * B32) % B64 + c64) % B64
  {
    Pow2At32();
    Add64(Shl64(c96, 32), c64)
  }

  /** The same two columns as unbounded numbers. */
  function Column96(x: Quad, y: Quad): nat {
    Times(x.d96, y.d00) + Times(x.d64, y.d32) + Times(x.d32, y.d64) + Times(x.d00, y.d96)
  }

  function Column64(x: Quad, y: Quad): nat {
    Times(x.d64, y.d00) + Times(x.d32, y.d32) + Times(x.d00, y.d64)
  }

  /** The products that are added after the columns, one at a time. */
  function LowProducts(x: Quad, y: Quad): nat {
    Times(x.d32, y.d00) * B32 + Times(x.d00, y.d32) * B32 + Times(x.d00, y.d00)
  }

  lemma DigitsTimes(d96: nat, d64: nat, d32: nat, d00: nat, y: nat)
    ensures Times(Digits(d96, d64, d32, d00), y) == Digits(Times(d96, y), Times(d64, y), Times(d32, y), Times(d00, y))
  {
    TimesScales(B32 * B64, d96, y);
    TimesScales(B64, d64, y);
    TimesScales(B32, d32, y);
    TimesAdds((B32 * B64) * d96, B64 * d64, y);
    TimesAdds((B32 * B64) * d96 + B64 * d64, B32 * d32, y);
    TimesAdds((B32 * B64) * d96 + B64 * d64 + B32 * d32, d00, y);
  }

  lemma TimesDigits(y: nat, q: Quad)
    ensures Times(y, q.Value()) == Digits(Times(y, q.d96), Times(y, q.d64), Times(y, q.d32), Times(y, q.d00))
  {
    DigitsTimes(q.d96, q.d64, q.d32, q.d00, y);
    TimesCommutes(y, q.Value());
    TimesCommutes(y, q.d96);
    TimesCommutes(y, q.d64);
    TimesCommutes(y, q.d32);
    TimesCommutes(y, q.d00);
  }

  /** What the sixteen digit products add up to; `over` collects those that start at bit 128. */
  lemma SixteenProducts(x: Quad, y: Quad) returns (over: nat)
    ensures Times(x.Value(), y.Value()) ==
            over * B128 + Column96(x, y) * (B32 * B64) + Column64(x, y) * B64 + LowProducts(x, y)
  {
    DigitsTimes(x.d96, x.d64, x.d32, x.d00, y.Value());
    TimesDigits(x.d96, y);
    TimesDigits(x.d64, y);
    TimesDigits(x.d32, y);
    TimesDigits(x.d00, y);
    over := Times(x.d96, y.d96) * B64 + (Times(x.d96, y.d64) + Times(x.d64, y.d96)) * B32
            + (Times(x.d96, y.d32) + Times(x.d64, y.d64) + Times(x.d32, y.d96));
  }

  /** Carries out of the two upper columns fall off at bit 128, so dropping them early changes nothing. */
  lemma DroppedCarries(c96: nat, c64: nat, low: nat, hi: nat, over: nat)
    requires hi == (((c96 % B64) * B32) % B64 + c64 % B64) % B64
    ensures (hi * B64 + low) % B128 == (over * B128 + c96 * (B32 * B64) + c64 * B64 + low) % B128
  {
    var k1, k2 := c96 / B64, ((c96 % B64) * B32) / B64;
    var k3 := c64 / B64;
    var k4 := (((c96 % B64) * B32) % B64 + c64 % B64) / B64;
    var k := over + k1 * B32 + k2 + k3 + k4;
    assert over * B128 + c96 * (B32 * B64) + c64 * B64 + low == k * B128 + (hi * B64 + low);
    SameRemainder(hi * B64 + low, k);
  }

  lemma SameRemainder(x: int, k: nat)
    ensures (k * B128 + x) % B128 == x % B128
  {
  }

  /** The product of two 32-bit digits does not wrap. */
  lemma DigitProduct(x: Word, y: Word)
    requires x < B32 && y < B32
    ensures Mul64(x, y) == Times(x, y) < B64
  {
    ProductBound(x, y, B32);
    TimesIsProduct(x, y);
  }

  lemma ProductBound(x: nat, y: nat, b: nat)
    requires x < b && y < b
    ensures x * y < b * b
  {
    if x > 0 {
      assert x * y < x * b;
      assert x * b <= b * b;
    }
  }

  // ----- halves that carry and borrow

  lemma Wrapped(x: Word, y: Word)
    ensures Add64(x, y) == if x + y < B64 then x + y else x + y - B64
    ensures Sub64(x, y) == if x < y then x - y + B64 else x - y
  {
  }

  lemma RemainderIs(x: int, r: nat, k: int)
    requires r < B128 && x == k * B128 + r
    ensures x % B128 == r
  {
  }

  lemma AddHalves(a: U128, b: U128, r: U128)
    requires r.lo == Add64(a.lo, b.lo)
    requires r.hi == if r.lo < a.lo then Add64(Add64(a.hi, b.hi), 1) else Add64(a.hi, b.hi)
    ensures r.Value() == (a.Value() + b.Value()) % B128
  {
    Wrapped(a.lo, b.lo);
    Wrapped(a.hi, b.hi);
    Wrapped(Add64(a.hi, b.hi), 1);
    var carry := if r.lo < a.lo then 1 else 0;
    RemainderIs(a.Value() + b.Value(), r.Value(), if a.hi + b.hi + carry < B64 then 0 else 1);
  }

  lemma SubHalves(a: U128, b: U128, r: U128)
    requires r.lo == Sub64(a.lo, b.lo)
    requires r.hi == if b.lo > a.lo then Sub64(Sub64(a.hi, b.hi), 1) else Sub64(a.hi, b.hi)
    ensures r.Value() == (a.Value() - b.Value()) % B128
  {
    Wrapped(a.lo, b.lo);
    Wrapped(a.hi, b.hi);
    Wrapped(Sub64(a.hi, b.hi), 1);
    var borrow := if b.lo > a.lo then 1 else 0;
    RemainderIs(a.Value() - b.Value(), r.Value(), if a.hi - b.hi - borrow >= 0 then 0 else -1);
  }

  /** The object form: the compound assignment operators change the halves in place. */
  class Uint128 {
    var lo: Word
    var hi: Word

    constructor (v: U128)
      ensures Get() == v
    {
      lo := v.lo;
      hi := v.hi;
    }

    /** Conversion from a 32-bit signed integer extends the sign into the high half. */
    constructor FromInt(bottom: int)
      requires -0x8000_0000 <= bottom < 0x8000_0000
      ensures Get().Value() == bottom % B128
    {
      lo := bottom % B64;
      hi := if bottom < 0 then Sub64(0, 1) else 0;
    }

    function Get(): U128
      reads this
    {
      U128(hi, lo)
    }

    method AddAssign(b: Uint128)
      modifies this
      ensures Get().Value() == (old(Get().Value()) + old(b.Get().Value())) % B128
    {
      ghost var a0, b0 := Get(), b.Get();
      hi := Add64(hi, b.hi);
      var lolo := Add64(lo, b.lo);
      if lolo < lo {
        hi := Add64(hi, 1);
      }
      lo := lolo;
      AddHalves(a0, b0, Get());
    }

    method SubAssign(b: Uint128)
      modifies this
      ensures Get().Value() == (old(Get().Value()) - old(b.Get().Value())) % B128
    {
      ghost var a0, b0 := Get(), b.Get();
      hi := Sub64(hi, b.hi);
      if b.lo > lo {
        hi := Sub64(hi, 1);
      }
      lo := Sub64(lo, b.lo);
      SubHalves(a0, b0, Get());
    }

    method MulAssign(b: Uint128)
      modifies this
      ensures Get().Value() == (old(Get()).Value() * old(b.Get()).Value()) % B128
    {
      var x, y := SplitDigits(Get()), SplitDigits(b.Get());
      var upper := UpperHalf(C96(x, y), C64(x, y));
      var p, q, r := Mul64(x.d32, y.d00), Mul64(x.d00, y.d32), Mul64(x.d00, y.d00);
      UpperHalfValue(x, y);
      LowProductsValue(x, y);
      StoredProduct(x, y, upper, p, q, r);
      StoreColumns(upper, p, q, r);
      TimesIsProduct(x.Value(), y.Value());
    }

    /** The last part of `*=`: the upper columns are stored, then the lower products added one at a time. */
    method StoreColumns(upper: Word, p: Word, q: Word, r: Word)
      modifies this
      ensures Get().Value() == (((upper * B64 + p * B32) % B128 + q * B32) % B128 + r) % B128
    {
      hi := upper;
      lo := 0;
      AddWord(p, 32);
      AddWord(q, 32);
      AddWord(r, 0);
    }

    /** `*this += uint128(x) << n`. */
    method AddWord(x: Word, n: nat)
      requires n == 0 || n == 32
      modifies this
      ensures Get().Value() == (old(Get().Value()) + (if n == 0 then x else x * B32)) % B128
    {
      if n == 32 {
        ShiftedWord(x, n);
      }
      var t := new Uint128(ShiftLeft(U128(0, x), n));
      AddAssign(t);
    }

    method ShiftLeftAssign(n: nat)
      modifies this
      ensures Get() == ShiftLeft(old(Get()), n)
    {
      if n < 64 {
        if n != 0 {
          hi := Or64(Shl64(hi, n), Shr64(lo, 64 - n));
          lo := Shl64(lo, n);
        }
      } else if n < 128 {
        hi := Shl64(lo, n - 64);
        lo := 0;
      } else {
        hi := 0;
        lo := 0;
      }
    }

    /** The middle branch clears the high half before it reads it. */
    method ShiftRightAssign(n: nat)
      modifies this
      ensures Get() == ShiftedRightInPlace(old(Get()), n)
    {
      if n < 64 {
        if n != 0 {
          lo := Or64(Shr64(lo, n), Shl64(hi, 64 - n));
          hi := Shr64(hi, n);
        }
      } else if n < 128 {
        hi := 0;
        lo := Shr64(hi, n - 64);
        DivModUnique(0, Pow2(n - 64), 0, 0);
      } else {
        hi := 0;
        lo := 0;
      }
    }
  }

  lemma ShiftedWord(x: Word, n: nat)
    requires n == 32
    ensures ShiftLeft(U128(0, x), n).Value() == x * B32
  {
    ShiftLeftValue(U128(0, x), n);
    WordTimes(x, Pow2(n));
  }

  lemma WordTimes(x: Word, p: nat)
    requires p == Pow2(32)
    ensures (x * p) % B128 == x * B32
  {
    Pow2At32();
  }

  lemma ThreeSums(v: nat, x: nat, y: nat, z: nat)
    ensures (((v + x) % B128 + y) % B128 + z) % B128 == (v + (x + y + z)) % B128
  {
    SumRemainder(v + x, y);
    SumRemainder(v + x + y, z);
  }

  lemma SumRemainder(x: nat, y: nat)
    ensures (x % B128 + y) % B128 == (x + y) % B128
  {
    SameRemainder(x % B128 + y, x / B128);
  }

  lemma ColumnSum(p: Word, q: Word, r: Word, s: Word)
    ensures Add64(Add64(p, q), r) == (p + q + r) % B64
    ensures Add64(Add64(Add64(p, q), r), s) == (p + q + r + s) % B64
  {
    SumAgain(p + q, r);
    SumAgain(p + q + r, s);
  }

  lemma SumAgain(x: nat, y: nat)
    ensures (x % B64 + y) % B64 == (x + y) % B64
  {
    var k := x / B64;
    assert x + y == k * B64 + (x % B64 + y);
  }

  lemma C96Value(x: Quad, y: Quad)
    requires x.Small() && y.Small()
    ensures C96(x, y) == Column96(x, y) % B64
  {
    DigitProduct(x.d96, y.d00);
    DigitProduct(x.d64, y.d32);
    DigitProduct(x.d32, y.d64);
    DigitProduct(x.d00, y.d96);
    ColumnSum(Mul64(x.d96, y.d00), Mul64(x.d64, y.d32), Mul64(x.d32, y.d64), Mul64(x.d00, y.d96));
  }

  lemma C64Value(x: Quad, y: Quad)
    requires x.Small() && y.Small()
    ensures C64(x, y) == Column64(x, y) % B64
  {
    DigitProduct(x.d64, y.d00);
    DigitProduct(x.d32, y.d32);
    DigitProduct(x.d00, y.d64);
    ColumnSum(Mul64(x.d64, y.d00), Mul64(x.d32, y.d32), Mul64(x.d00, y.d64), 0);
  }

  /** The columns the code keeps, added up one at a time, are the product of the operands modulo 2^128. */
  lemma ColumnsMakeProduct(x: Quad, y: Quad, upper: Word)
    requires upper == (((Column96(x, y) % B64) * B32) % B64 + Column64(x, y) % B64) % B64
    ensures (upper * B64 + LowProducts(x, y)) % B128 == Times(x.Value(), y.Value()) % B128
  {
    var over := SixteenProducts(x, y);
    DroppedCarries(Column96(x, y), Column64(x, y), LowProducts(x, y), upper, over);
  }

  lemma LowProductsValue(x: Quad, y: Quad)
    requires x.Small() && y.Small()
    ensures Mul64(x.d32, y.d00) * B32 + Mul64(x.d00, y.d32) * B32 + Mul64(x.d00, y.d00) == LowProducts(x, y)
  {
    DigitProduct(x.d32, y.d00);
    DigitProduct(x.d00, y.d32);
    DigitProduct(x.d00, y.d00);
  }

  lemma UpperHalfValue(x: Quad, y: Quad)
    requires x.Small() && y.Small()
    ensures UpperHalf(C96(x, y), C64(x, y)) == (((Column96(x, y) % B64) * B32) % B64 + Column64(x, y) % B64) % B64
  {
    C96Value(x, y);
    C64Value(x, y);
  }

  /** What StoreColumns stores, for the arguments MulAssign gives it. */
  lemma StoredProduct(x: Quad, y: Quad, upper: Word, p: Word, q: Word, r: Word)
    requires upper == (((Column96(x, y) % B64) * B32) % B64 + Column64(x, y) % B64) % B64
    requires p * B32 + q * B32 + r == LowProducts(x, y)
    ensures (((upper * B64 + p * B32) % B128 + q * B32) % B128 + r) % B128 == Times(x.Value(), y.Value()) % B128
  {
    ThreeSums(upper * B64, p * B32, q * B32, r);
    ColumnsMakeProduct(x, y, upper);
  }

  // ----- the in-place right shift

  /** What `>>=` leaves behind. */
  function ShiftedRightInPlace(a: U128, n: nat): U128 {
    if 64 <= n < 128 then U128(0, 0) else ShiftRight(a, n)
  }

  /** `>>=` agrees with floor division exactly when no bit of the value survives a shift by 64 to 127. */
  lemma InPlaceRightShiftExact(a: U128, n: nat)
    ensures ShiftedRightInPlace(a, n).Value() == a.Value() / Pow2(n)
            <==> n < 64 || n >= 128 || a.Value() < Pow2(n)
  {
    ShiftRightValue(a, n);
    var p := Pow2(n);
    if 64 <= n < 128 {
      if a.Value() < p {
        DivModUnique(a.Value(), p, 0, a.Value());
      } else {
        QuotientPositive(a.Value(), p);
      }
    }
  }

  lemma QuotientPositive(x: nat, p: nat)
    requires 0 < p <= x
    ensures x / p >= 1
  {
    MultipleIsLarge(1 - x / p, p);
    assert (1 - x / p) * p == p - (x / p) * p;
  }
}
