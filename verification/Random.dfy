/** The generator of base/random.h and the reservoir sampler built on it. */
module Randomness {
  import opened Bitwise
  import opened NumberTheory

  const M: nat := 0x7fff_ffff
  const A: nat := 16807

  /** The inverse of A modulo M. */
  const A_INVERSE: nat := 1407677000

  /** The recurrence the comments promise. */
  function Step(s: nat): (r: nat)
    ensures r < M
  {
    (A * s) % M
  }

  /** The seed after k draws. */
  function Iterate(s: nat, k: nat): nat {
    if k == 0 then s else Step(Iterate(s, k - 1))
  }

  // ----- the generator object

  lemma LowBits31(x: nat)
    ensures And(x, M) == x % 0x8000_0000 && x / Pow2(31) == x / 0x8000_0000
  {
    Pow2At31();
    ShiftIsTimesPow2(31, x / 0x8000_0000);
    AndLowBits(31, x % 0x8000_0000, x / 0x8000_0000);
  }

  lemma Pow2At31()
    ensures Pow2(31) == 0x8000_0000
  {
    Pow2At32();
  }

  /** Folding the high bits of the product onto the low ones, then one conditional subtraction, is reduction
      modulo M; the folded sum is never M itself. */
  lemma FoldReduces(s: nat)
    requires 1 <= s < M
    ensures
      var product := A * s;
      var folded := product / 0x8000_0000 + product % 0x8000_0000;
      && folded < 0x1_0000_0000 && folded != M
      && Step(s) == (if folded > M then folded - M else folded)
      && 1 <= Step(s) < M
  {
    var product := A * s;
    NotAMultiple(s, product / M);
    FoldedSum(product);
  }

  lemma FoldedSum(product: nat)
    requires product < A * 0x8000_0000 && product % M != 0
    ensures
      var folded := product / 0x8000_0000 + product % 0x8000_0000;
      folded < 0x1_0000_0000 && folded != M && product % M == (if folded > M then folded - M else folded)
  {
    var q, r := product / 0x8000_0000, product % 0x8000_0000;
    assert product == q * M + (q + r);
    assert q + r < 2 * M;
  }

  /** M does not divide A * s for a seed s: multiplying by the inverse of A would make s a multiple of M. */
  lemma NotAMultiple(s: nat, q: int)
    requires 1 <= s < M
    ensures A * s != q * M
  {
    if A * s == q * M {
      assert A_INVERSE * A == 11017 * M + 1;
      assert s == (A_INVERSE * q - 11017 * s) * M;
      MultipleIsLarge(A_INVERSE * q - 11017 * s, M);
    }
  }

  class Random {
    var seed: nat

    predicate Valid()
      reads this
    {
      1 <= seed < M
    }

    constructor (s: nat)
      requires s < 0x1_0000_0000
      ensures Valid()
      ensures seed == if s % 0x8000_0000 == 0 || s % 0x8000_0000 == M then 1 else s % 0x8000_0000
    {
      seed := 1;
      new;
      Reset(s);
    }

    method Reset(s: nat)
      requires s < 0x1_0000_0000
      modifies this
      ensures Valid()
      ensures seed == if s % 0x8000_0000 == 0 || s % 0x8000_0000 == M then 1 else s % 0x8000_0000
    {
      LowBits31(s);
      seed := And(s, M);
      if seed == 0 || seed == M {
        seed := 1;
      }
    }

    method Next() returns (r: nat)
      requires Valid()
      modifies this
      ensures Valid() && r == seed == Step(old(seed))
    {
      hide And, Pow2, Step;
      FoldReduces(seed);
      var product := seed * A;
      LowBits31(product);
      seed := (product / Pow2(31) + And(product, M)) % 0x1_0000_0000;
      if seed > M {
        seed := seed - M;
      }
      r := seed;
    }

    method Uniform(n: nat) returns (r: nat)
      requires Valid() && n > 0
      modifies this
      ensures Valid() && seed == Step(old(seed)) && r == seed % n < n
    {
      var x := Next();
      r := x % n;
    }
  }

  // ----- modular arithmetic

  lemma ModMul(x: nat, y: nat)
    ensures ((x % M) * y) % M == (x * y) % M
  {
    var q := x / M;
    assert x * y == (q * M) * y + (x % M) * y;
    assert (q * M) * y == M * (q * y);
    MultiplesVanish((x % M) * y, q * y);
  }

  lemma MultiplesVanish(x: nat, k: nat)
    ensures (M * k + x) % M == x % M
  {
  }

  /** Step is invertible on residues. */
  lemma StepInjective(x: nat, y: nat)
    requires x < M && y < M && Step(x) == Step(y)
    ensures x == y
  {
    Undo(x);
    Undo(y);
  }

  lemma Undo(x: nat)
    requires x < M
    ensures (A_INVERSE * Step(x)) % M == x
  {
    ModMul(A * x, A_INVERSE);
    assert A_INVERSE * A == 11017 * M + 1;
    assert (A * x) * A_INVERSE == M * (11017 * x) + x;
    MultiplesVanish(x, 11017 * x);
    assert A_INVERSE * Step(x) == Step(x) * A_INVERSE;
  }

  /** The powers of A modulo M, the orbit of seed 1. */
  function Orbit(k: nat): nat { Iterate(1, k) }

  lemma {:induction false} IterateRange(s: nat, k: nat)
    requires 1 <= s < M
    ensures 1 <= Iterate(s, k) < M
  {
    if k > 0 {
      IterateRange(s, k - 1);
      FoldReduces(Iterate(s, k - 1));
    }
  }

  lemma {:induction false} IterateAdds(s: nat, i: nat, j: nat)
    ensures Iterate(Iterate(s, i), j) == Iterate(s, i + j)
  {
    if j > 0 {
      IterateAdds(s, i, j - 1);
      assert i + j - 1 == i + (j - 1);
    }
  }

  lemma SwapLast(x: nat, y: nat, z: nat)
    ensures (x * y) * z == (z * y) * x
  {
    assert x * y == y * x;
    assert (y * x) * z == y * (x * z) == y * (z * x) == (y * z) * x;
  }

  /** A step of a product is the product with a step. */
  lemma StepOfProduct(s: nat, o: nat)
    ensures Step((s * o) % M) == (s * Step(o)) % M
  {
    ModMul(s * o, A);
    ModMul(A * o, s);
    SwapLast(s, o, A);
    assert A * ((s * o) % M) == ((s * o) % M) * A;
    assert s * Step(o) == Step(o) * s;
  }

  /** k draws multiply the seed by A^k. */
  lemma {:induction false} IterateIsProduct(s: nat, k: nat)
    requires s < M
    ensures Iterate(s, k) == (s * Orbit(k)) % M
  {
    if k > 0 {
      IterateIsProduct(s, k - 1);
      hide Step;
      StepOfProduct(s, Orbit(k - 1));
    }
  }

  lemma {:induction false} IterateInjective(s: nat, t: nat, k: nat)
    requires s < M && t < M && Iterate(s, k) == Iterate(t, k)
    ensures s == t
  {
    if k > 0 {
      StepInjective(Iterate(s, k - 1), Iterate(t, k - 1));
      IterateInjective(s, t, k - 1);
    }
  }

  // ----- the order of A

  const N: nat := 0x7fff_fffe

  function Mul(x: nat, y: nat): nat { (x * y) % 0x7fff_ffff }

  lemma OrbitAdds(i: nat, j: nat)
    ensures Orbit(i + j) == Mul(Orbit(i), Orbit(j))
  {
    IterateRange(1, i);
    IterateAdds(1, i, j);
    IterateIsProduct(Orbit(i), j);
  }

  /** Three squarings and a multiplication: from A^e to A^(8e + d). */
  lemma OctalStep(e: nat, v: nat, v2: nat, v4: nat, v8: nat, d: nat, pd: nat, r: nat) returns (f: nat)
    requires Orbit(e) == v && Orbit(d) == pd
    requires v2 == Mul(v, v) && v4 == Mul(v2, v2) && v8 == Mul(v4, v4) && r == Mul(v8, pd)
    ensures f == 8 * e + d && Orbit(f) == r
  {
    hide Mul, Orbit;
    OrbitAdds(e, e);
    OrbitAdds(2 * e, 2 * e);
    OrbitAdds(4 * e, 4 * e);
    OrbitAdds(8 * e, d);
    f := 8 * e + d;
  }

  lemma SmallPowers()
    ensures Orbit(0) == 1
    ensures Orbit(1) == 16807
    ensures Orbit(2) == 282475249
    ensures Orbit(3) == 1622650073
    ensures Orbit(4) == 984943658
    ensures Orbit(5) == 1144108930
    ensures Orbit(6) == 470211272
    ensures Orbit(7) == 101027544
  {
    assert Orbit(0) == 1;
    assert Orbit(1) == 16807;
    assert Orbit(2) == 282475249;
    assert Orbit(3) == 1622650073;
    assert Orbit(4) == 984943658;
    assert Orbit(5) == 1144108930;
    assert Orbit(6) == 470211272;
    assert Orbit(7) == 101027544;
  }

  // The powers A^(N/p), three bits of the exponent at a time.

  lemma PowerNOver2() returns (e: nat)
    ensures e == 1073741823 && Orbit(e) == 2147483646
  {
    SmallPowers();
    hide Orbit, Iterate, Step;
    e := 7;
    e := OctalStep(e, 101027544, 74243042, 1404280278, 357571490, 7, 101027544, 1108728549);
    e := OctalStep(e, 1108728549, 1524325968, 1887638, 501848671, 7, 101027544, 268317158);
    e := OctalStep(e, 268317158, 69297956, 1626872889, 990023668, 7, 101027544, 1083014291);
    e := OctalStep(e, 1083014291, 387634529, 2075801871, 1478271864, 7, 101027544, 1079224412);
    e := OctalStep(e, 1079224412, 984924185, 574246853, 457589386, 7, 101027544, 103492285);
    e := OctalStep(e, 103492285, 1055697433, 1242312909, 1264295359, 7, 101027544, 2031328313);
    e := OctalStep(e, 2031328313, 1683135246, 1904426073, 1207571468, 7, 101027544, 566127400);
    e := OctalStep(e, 566127400, 354402503, 1792642514, 2110178539, 7, 101027544, 1098008483);
    e := OctalStep(e, 1098008483, 1219381394, 72315446, 1617775574, 7, 101027544, 2147483646);
  }

  lemma PowerNOver3() returns (e: nat)
    ensures e == 715827882 && Orbit(e) == 634005911
  {
    SmallPowers();
    hide Orbit, Iterate, Step;
    e := 5;
    e := OctalStep(e, 1144108930, 2007237709, 143542612, 784558821, 2, 282475249, 2110010672);
    e := OctalStep(e, 2110010672, 1478446501, 304987844, 832861200, 5, 1144108930, 1442645480);
    e := OctalStep(e, 1442645480, 1987502657, 898003988, 401868524, 2, 282475249, 1656394764);
    e := OctalStep(e, 1656394764, 1932829497, 1424641441, 1647538696, 5, 1144108930, 1283266847);
    e := OctalStep(e, 1283266847, 544348633, 1343851667, 1409749306, 2, 282475249, 1175969859);
    e := OctalStep(e, 1175969859, 1524724550, 1299877462, 1677815163, 5, 1144108930, 600776587);
    e := OctalStep(e, 600776587, 313625057, 438271176, 446115504, 2, 282475249, 1401305734);
    e := OctalStep(e, 1401305734, 1814666956, 993967121, 332459328, 5, 1144108930, 1568664301);
    e := OctalStep(e, 1568664301, 1695056031, 273600077, 2134894400, 2, 282475249, 634005911);
  }

  lemma PowerNOver7() returns (e: nat)
    ensures e == 306783378 && Orbit(e) == 1600955193
  {
    SmallPowers();
    hide Orbit, Iterate, Step;
    e := 2;
    e := OctalStep(e, 282475249, 984943658, 1457850878, 1137522503, 2, 282475249, 16531729);
    e := OctalStep(e, 16531729, 704877633, 824938981, 318153057, 2, 282475249, 877819790);
    e := OctalStep(e, 877819790, 338725129, 401203083, 749808928, 2, 282475249, 1973792143);
    e := OctalStep(e, 1973792143, 1377979805, 2112868075, 2079403300, 2, 282475249, 1588280530);
    e := OctalStep(e, 1588280530, 1292075693, 320365114, 795457266, 2, 282475249, 713072451);
    e := OctalStep(e, 713072451, 808531276, 72714612, 821751376, 2, 282475249, 864669998);
    e := OctalStep(e, 864669998, 1994951511, 2080243443, 1683044520, 2, 282475249, 1089368889);
    e := OctalStep(e, 1089368889, 315126303, 1645296062, 2070186944, 2, 282475249, 1410082339);
    e := OctalStep(e, 1410082339, 1210473470, 2032255744, 1294654868, 2, 282475249, 1600955193);
  }

  lemma PowerNOver11() returns (e: nat)
    ensures e == 195225786 && Orbit(e) == 298192073
  {
    SmallPowers();
    hide Orbit, Iterate, Step;
    e := 1;
    e := OctalStep(e, 16807, 282475249, 984943658, 1457850878, 3, 1622650073, 823564440);
    e := OctalStep(e, 823564440, 1474833169, 1617819336, 1557810404, 5, 1144108930, 753799505);
    e := OctalStep(e, 753799505, 462242385, 978719103, 1763464891, 0, 1, 1763464891);
    e := OctalStep(e, 1763464891, 1385869610, 1047660757, 679010143, 5, 1144108930, 130893364);
    e := OctalStep(e, 130893364, 1526871920, 1249277917, 657235206, 6, 470211272, 2001314837);
    e := OctalStep(e, 2001314837, 1917845806, 450369632, 703814329, 4, 984943658, 1815619984);
    e := OctalStep(e, 1815619984, 289296328, 1343207366, 2134136009, 2, 282475249, 473615331);
    e := OctalStep(e, 473615331, 863477630, 1932756199, 716681213, 7, 101027544, 1317948048);
    e := OctalStep(e, 1317948048, 1034787341, 1644037872, 1869945767, 2, 282475249, 298192073);
  }

  lemma PowerNOver31() returns (e: nat)
    ensures e == 69273666 && Orbit(e) == 16384
  {
    SmallPowers();
    hide Orbit, Iterate, Step;
    e := 4;
    e := OctalStep(e, 984943658, 1457850878, 1137522503, 1636807826, 1, 16807, 563613512);
    e := OctalStep(e, 563613512, 1060806853, 1400285365, 175530180, 0, 1, 175530180);
    e := OctalStep(e, 175530180, 706642601, 1680351381, 1762940470, 2, 282475249, 111398400);
    e := OctalStep(e, 111398400, 2048666863, 480822013, 1593778648, 0, 1, 1593778648);
    e := OctalStep(e, 1593778648, 1464474750, 1535817640, 911831480, 4, 984943658, 1275506524);
    e := OctalStep(e, 1275506524, 2107038118, 1590438532, 2141501481, 1, 16807, 389467447);
    e := OctalStep(e, 389467447, 501934855, 495975381, 411385676, 0, 1, 411385676);
    e := OctalStep(e, 411385676, 424739074, 205970348, 2143103993, 2, 282475249, 16384);
  }

  lemma PowerNOver151() returns (e: nat)
    ensures e == 14221746 && Orbit(e) == 1013763951
  {
    SmallPowers();
    hide Orbit, Iterate, Step;
    e := 6;
    e := OctalStep(e, 470211272, 1115438165, 1998097157, 1899894091, 6, 470211272, 590357944);
    e := OctalStep(e, 590357944, 70982397, 1536830211, 711192801, 2, 282475249, 2119315080);
    e := OctalStep(e, 2119315080, 876554400, 444978220, 454021550, 0, 1, 454021550);
    e := OctalStep(e, 454021550, 2010792109, 2100574543, 1969511326, 0, 1, 1969511326);
    e := OctalStep(e, 1969511326, 199457713, 1321483756, 1624418789, 6, 470211272, 634585456);
    e := OctalStep(e, 634585456, 1238329771, 1052220632, 1537400212, 6, 470211272, 1031122011);
    e := OctalStep(e, 1031122011, 2059074765, 758497081, 1449655222, 2, 282475249, 1013763951);
  }

  lemma PowerNOver331() returns (e: nat)
    ensures e == 6487866 && Orbit(e) == 759513457
  {
    SmallPowers();
    hide Orbit, Iterate, Step;
    e := 3;
    e := OctalStep(e, 1622650073, 470211272, 1115438165, 1998097157, 0, 1, 1998097157);
    e := OctalStep(e, 1998097157, 1899894091, 1816731566, 1086531968, 5, 1144108930, 2043046042);
    e := OctalStep(e, 2043046042, 13618676, 910819821, 806244819, 7, 101027544, 182048270);
    e := OctalStep(e, 182048270, 799204591, 1592854157, 672182563, 7, 101027544, 1508402482);
    e := OctalStep(e, 1508402482, 365383789, 141486889, 2144242195, 4, 984943658, 1315497955);
    e := OctalStep(e, 1315497955, 1048814560, 1051660835, 1607825870, 7, 101027544, 2134324430);
    e := OctalStep(e, 2134324430, 500693597, 369430440, 21945301, 2, 282475249, 759513457);
  }

  /** N = M - 1 = 2 * 3 * 3 * 7 * 11 * 31 * 151 * 331, so a divisor other than 1 has one of these primes. */
  predicate HasListedPrime(q: nat) {
    q % 2 == 0 || q % 3 == 0 || q % 7 == 0 || q % 11 == 0 || q % 31 == 0 || q % 151 == 0 || q % 331 == 0
  }

  lemma ListedPrimes()
    ensures Prime(2) && Prime(3) && Prime(7) && Prime(11) && Prime(31) && Prime(151) && Prime(331)
  {
    TrialDivision(2, 1);
    TrialDivision(3, 1);
    TrialDivision(7, 2);
    TrialDivision(11, 3);
    TrialDivision(31, 5);
    TrialDivision(151, 12);
    assert NoDivisorUpTo(331, 9);
    assert NoDivisorUpTo(331, 14);
    TrialDivision(331, 18);
  }

  lemma DivisorOfN(q: nat)
    requires q > 1 && N % q == 0
    ensures HasListedPrime(q)
  {
    ListedPrimes();
    if !HasListedPrime(q) {
      PrimeStripped(q, 2, 1073741823);
      PrimeStripped(q, 3, 357913941);
      PrimeStripped(q, 3, 119304647);
      PrimeStripped(q, 7, 17043521);
      PrimeStripped(q, 11, 1549411);
      PrimeStripped(q, 31, 49981);
      PrimeStripped(q, 151, 331);
      PrimeStripped(q, 331, 1);
    }
  }

  lemma {:induction false} OnePowers(e: nat, k: nat)
    requires Orbit(e) == 1
    ensures Orbit(e * k) == 1
  {
    if k > 0 {
      OnePowers(e, k - 1);
      OrbitAdds(e * (k - 1), e);
      assert e * k == e * (k - 1) + e;
    }
  }

  lemma OrbitOfN()
    ensures Orbit(N) == 1
  {
    hide Orbit;
    var half := PowerNOver2();
    OrbitAdds(half, half);
  }

  lemma OverPrime(e: nat, q: nat, p: nat)
    requires e * q == N && p > 0 && q % p == 0 && Orbit(e) == 1
    ensures Orbit(N / p) == 1
  {
    hide Orbit;
    Cofactor(q, p);
    var k := q / p;
    OnePowers(e, k);
    assert e * (p * k) == (e * k) * p;
    DivModUnique(N, p, e * k, 0);
  }

  /** If A^e is 1 for a divisor e of N then e is N: otherwise A^(N/p) would be 1 for a prime p of N. */
  lemma NoSmallerOrder(e: nat, q: nat)
    requires q > 1 && e * q == N
    ensures Orbit(e) != 1
  {
    hide Orbit;
    MultipleDivides(q, e);
    assert N % q == 0;
    DivisorOfN(q);
    if Orbit(e) == 1 {
      if q % 2 == 0 {
        OverPrime(e, q, 2);
        var n := PowerNOver2();
      } else if q % 3 == 0 {
        OverPrime(e, q, 3);
        var n := PowerNOver3();
      } else if q % 7 == 0 {
        OverPrime(e, q, 7);
        var n := PowerNOver7();
      } else if q % 11 == 0 {
        OverPrime(e, q, 11);
        var n := PowerNOver11();
      } else if q % 31 == 0 {
        OverPrime(e, q, 31);
        var n := PowerNOver31();
      } else if q % 151 == 0 {
        OverPrime(e, q, 151);
        var n := PowerNOver151();
      } else {
        OverPrime(e, q, 331);
        var n := PowerNOver331();
      }
    }
  }

  lemma OrbitRemainder(a: nat, b: nat)
    requires b > 0 && Orbit(a) == 1 && Orbit(b) == 1
    ensures Orbit(a % b) == 1
  {
    var q, r := a / b, a % b;
    IterateRange(1, r);
    hide Orbit;
    OnePowers(b, q);
    OrbitAdds(b * q, r);
    assert b * q + r == a;
  }

  /** The exponents at which the orbit returns to 1 are closed under greatest common divisors. */
  lemma CommonPeriod(a: nat, b: nat) returns (g: nat)
    requires a > 0 && Orbit(a) == 1 && Orbit(b) == 1
    ensures g > 0 && a % g == 0 && b % g == 0 && Orbit(g) == 1
    decreases b
  {
    hide Orbit;
    if b == 0 {
      g := a;
      MultipleDivides(a, 1);
    } else {
      OrbitRemainder(a, b);
      g := CommonPeriod(b, a % b);
      DividesSum(a, b, a / b, a % b, g);
    }
  }

  /** 16807 is a primitive root: its powers return to 1 at N = M - 1 and not before. */
  lemma PrimitiveRoot(k: nat)
    requires 0 < k < N
    ensures Orbit(k) != 1
  {
    hide Orbit;
    OrbitOfN();
    if Orbit(k) == 1 {
      var g := CommonPeriod(N, k);
      DivisorIsSmall(k, g);
      Cofactor(N, g);
      NoSmallerOrder(g, N / g);
    }
  }

  lemma OrbitInjective(i: nat, j: nat)
    requires i <= j < N && Orbit(i) == Orbit(j)
    ensures i == j
  {
    IterateAdds(1, j - i, i);
    IterateRange(1, j - i);
    IterateInjective(1, Orbit(j - i), i);
    if i < j {
      PrimitiveRoot(j - i);
    }
  }

  function OrbitSet(k: nat): set<nat> {
    if k == 0 then {} else OrbitSet(k - 1) + {Orbit(k - 1)}
  }

  ghost predicate InOrbit(v: nat, k: nat) { exists i: nat :: i < k && Orbit(i) == v }

  lemma OrbitGrows(v: nat, k: nat)
    requires InOrbit(v, k)
    ensures InOrbit(v, k + 1)
  {
    hide Orbit;
  }

  lemma NewInOrbit(k: nat)
    requires k < N && forall v :: v in OrbitSet(k) ==> InOrbit(v, k)
    ensures Orbit(k) !in OrbitSet(k)
  {
    hide Orbit, OrbitSet;
    if Orbit(k) in OrbitSet(k) {
      var i: nat :| i < k && Orbit(i) == Orbit(k);
      OrbitInjective(i, k);
    }
  }

  lemma OrbitSetGrows(k: nat)
    requires k > 0
    ensures OrbitSet(k) == OrbitSet(k - 1) + {Orbit(k - 1)} && Orbit(k - 1) == Iterate(1, k - 1)
  {
  }

  lemma {:induction false} OrbitSetMembers(k: nat)
    requires k <= N
    ensures |OrbitSet(k)| == k
    ensures forall v :: v in OrbitSet(k) ==> 1 <= v <= N
    ensures forall v :: v in OrbitSet(k) ==> InOrbit(v, k)
  {
    if k > 0 {
      OrbitSetMembers(k - 1);
      IterateRange(1, k - 1);
      NewInOrbit(k - 1);
      hide Orbit, OrbitSet;
      OrbitSetGrows(k);
      forall v | v in OrbitSet(k) ensures InOrbit(v, k) && 1 <= v <= N {
        if v == Orbit(k - 1) {
          assert InOrbit(v, k);
        } else {
          OrbitGrows(v, k - 1);
        }
      }
    }
  }

  /** Every seed is a power of A. */
  lemma SeedIsPower(t: nat) returns (k: nat)
    requires 1 <= t < M
    ensures k < N && Orbit(k) == t
  {
    hide Orbit, OrbitSet;
    OrbitSetMembers(N);
    Pigeonhole(OrbitSet(N), N);
    assert t in OrbitSet(N);
    k :| k < N && Orbit(k) == t;
  }

  /** From any seed the generator reaches every number in 1..M-1 within N draws... */
  lemma FullCycle(s: nat, t: nat) returns (k: nat)
    requires 1 <= s < M && 1 <= t < M
    ensures k < N && Iterate(s, k) == t
  {
    var a := SeedIsPower(s);
    var b := SeedIsPower(t);
    k := if a <= b then b - a else b + N - a;
    IterateAdds(1, a, k);
    if a > b {
      OrbitOfN();
      IterateAdds(1, N, b);
    }
  }

  /** ...and comes back to its seed after N draws and not before: the period is exactly M - 1. */
  lemma PeriodIsN(s: nat, k: nat)
    requires 1 <= s < M && k <= N
    ensures Iterate(s, k) == s <==> k == 0 || k == N
  {
    var a := SeedIsPower(s);
    IterateAdds(1, a, k);
    IterateAdds(1, k, a);
    IterateRange(1, k);
    OrbitOfN();
    if 0 < k < N {
      PrimitiveRoot(k);
      if Iterate(s, k) == s {
        IterateInjective(1, Orbit(k), a);
      }
    }
  }

  // ----- reservoir sampling

  /** The elements of c that are not to be avoided, in order. */
  function Eligible<T(==)>(c: seq<T>, avoid: set<T>): seq<T> {
    if c == [] then []
    else
      var rest := Eligible(c[..|c| - 1], avoid);
      if c[|c| - 1] in avoid then rest else rest + [c[|c| - 1]]
  }

  /** Which eligible elements, by position, sit in the reservoir of size k after the first n of them;
      draws gives the random number drawn at the i-th eligible element. */
  function Slots(n: nat, k: nat, draws: map<nat, nat>): seq<nat> {
    if n == 0 then []
    else
      var before := Slots(n - 1, k, draws);
      if |before| < k then before + [n - 1]
      else if n in draws && draws[n] < k && draws[n] < |before| then before[draws[n] := n - 1]
      else before
  }

  ghost predicate Distinct(s: seq<nat>) { forall i, j :: 0 <= i < j < |s| ==> s[i] != s[j] }

  ghost predicate Ascending(s: seq<nat>) { forall i, j :: 0 <= i < j < |s| ==> s[i] < s[j] }

  ghost predicate Below(s: seq<nat>, n: nat) { forall i :: 0 <= i < |s| ==> s[i] < n }

  /** The sample: the elements at the positions that Slots chose. */
  ghost function Pick<T>(e: seq<T>, slots: seq<nat>): (sample: seq<T>)
    requires Below(slots, |e|)
    ensures |sample| == |slots| && forall i :: 0 <= i < |slots| ==> sample[i] == e[slots[i]]
  {
    seq(|slots|, i requires 0 <= i < |slots| => e[slots[i]])
  }

  /** The reservoir holds min(k, n) distinct positions, and the first n in order as long as they fit. */
  lemma {:induction false} SlotsShape(n: nat, k: nat, draws: map<nat, nat>)
    ensures |Slots(n, k, draws)| == (if n < k then n else k)
    ensures Below(Slots(n, k, draws), n)
    ensures Distinct(Slots(n, k, draws))
    ensures n <= k ==> Slots(n, k, draws) == seq(n, i requires 0 <= i < n => i)
  {
    if n > 0 {
      SlotsShape(n - 1, k, draws);
      assert n <= k ==> Slots(n, k, draws) == Slots(n - 1, k, draws) + [n - 1];
    }
  }

  /** Draws after n do not matter for the first n elements. */
  lemma {:induction false} SlotsExtend(n: nat, k: nat, draws: map<nat, nat>, i: nat, j: nat)
    requires n < i
    ensures Slots(n, k, draws[i := j]) == Slots(n, k, draws)
  {
    if n > 0 {
      SlotsExtend(n - 1, k, draws, i, j);
    }
  }

  lemma EligibleStep<T>(c: seq<T>, i: nat, avoid: set<T>)
    requires i < |c|
    ensures Eligible(c[..i + 1], avoid) ==
            (if c[i] in avoid then Eligible(c[..i], avoid) else Eligible(c[..i], avoid) + [c[i]])
  {
    assert c[..i + 1][..i] == c[..i];
  }

  lemma {:induction false} EligibleMembers<T>(c: seq<T>, avoid: set<T>)
    ensures |Eligible(c, avoid)| <= |c|
    ensures forall x :: x in Eligible(c, avoid) <==> x in c && x !in avoid
  {
    if c != [] {
      var last := |c| - 1;
      EligibleMembers(c[..last], avoid);
      assert forall x :: x in c <==> x in c[..last] || x == c[last];
    }
  }

  lemma SlotsFill(n: nat, k: nat, draws: map<nat, nat>)
    requires n > 0 && |Slots(n - 1, k, draws)| < k
    ensures Slots(n, k, draws) == Slots(n - 1, k, draws) + [n - 1]
  {
  }

  lemma SlotsDraw(n: nat, k: nat, draws: map<nat, nat>)
    requires n > 0 && |Slots(n - 1, k, draws)| == k && n in draws
    ensures Slots(n, k, draws) ==
            if draws[n] < k then Slots(n - 1, k, draws)[draws[n] := n - 1] else Slots(n - 1, k, draws)
  {
  }

  lemma PickStep<T>(e: seq<T>, x: T, slots: seq<nat>)
    requires Below(slots, |e|)
    ensures Below(slots, |e| + 1) && Pick(e + [x], slots) == Pick(e, slots)
    ensures Below(slots + [|e|], |e| + 1) && Pick(e + [x], slots + [|e|]) == Pick(e, slots) + [x]
  {
  }

  lemma PickReplaced<T>(e: seq<T>, x: T, slots: seq<nat>, j: nat)
    requires Below(slots, |e|) && j < |slots|
    ensures Below(slots[j := |e|], |e| + 1) && Pick(e + [x], slots[j := |e|]) == Pick(e, slots)[j := x]
  {
  }

  lemma EmptyReservoir<T>(c: seq<T>, k: nat, avoid: set<T>)
    ensures Eligible(c[..0], avoid) == [] && Slots(0, k, map[]) == []
    ensures Below(Slots(0, k, map[]), 0) && Pick<T>([], Slots(0, k, map[])) == []
  {
  }

  /** The number drawn at the i-th eligible element by a generator with this seed. */
  function DrawAt(seed: nat, i: nat, k: nat): nat
    requires k < i
  {
    Iterate(seed, i - k) % i
  }

  function DrawsOf(seed: nat, n: nat, k: nat): map<nat, nat> {
    map i: nat | k < i <= n :: DrawAt(seed, i, k)
  }

  lemma NoDraw(seed: nat)
    ensures Iterate(seed, 0) == seed
  {
  }

  lemma NextDraw(seed: nat, i: nat, k: nat)
    requires k < i
    ensures DrawAt(seed, i, k) == Step(Iterate(seed, i - k - 1)) % i
    ensures Iterate(seed, i - k) == Step(Iterate(seed, i - k - 1))
  {
  }

  lemma DrawsAre(draws: map<nat, nat>, seed: nat, n: nat, k: nat)
    requires forall i :: i in draws <==> k < i <= n
    requires forall i :: i in draws ==> draws[i] == DrawAt(seed, i, k)
    ensures draws == DrawsOf(seed, n, k)
  {
    hide DrawAt;
  }

  method ReservoirSample<T(==)>(rng: Random, c: seq<T>, k: nat, avoid: set<T>)
    returns (result: seq<T>, ghost draws: map<nat, nat>)
    requires rng.Valid() && |c| < 0x8000_0000
    modifies rng
    ensures rng.Valid()
    ensures draws == DrawsOf(old(rng.seed), |Eligible(c, avoid)|, k)
    ensures rng.seed == Iterate(old(rng.seed), |Eligible(c, avoid)| - (if |Eligible(c, avoid)| < k then |Eligible(c, avoid)| else k))
    ensures Below(Slots(|Eligible(c, avoid)|, k, draws), |Eligible(c, avoid)|)
    ensures result == Pick(Eligible(c, avoid), Slots(|Eligible(c, avoid)|, k, draws))
  {
    hide Slots, Eligible, Pick, Step, Below, DrawsOf, DrawAt, Iterate;
    result, draws := [], map[];
    var i := 0;
    EmptyReservoir(c, k, avoid);
    assert Iterate(rng.seed, 0) == rng.seed by {
      NoDraw(rng.seed);
    }
    ghost var e: seq<T> := [];
    for pos := 0 to |c|
      invariant rng.Valid()
      invariant e == Eligible(c[..pos], avoid) && i == |e| <= pos
      invariant forall i :: i in draws <==> k < i <= |e|
      invariant forall i :: i in draws ==> draws[i] == DrawAt(old(rng.seed), i, k)
      invariant rng.seed == Iterate(old(rng.seed), |e| - (if |e| < k then |e| else k))
      invariant Below(Slots(|e|, k, draws), |e|)
      invariant result == Pick(e, Slots(|e|, k, draws))
    {
      EligibleStep(c, pos, avoid);
      var elem := c[pos];
      if elem in avoid {
        continue;
      }
      i := i + 1;
      SlotsShape(|e|, k, draws);
      PickStep(e, elem, Slots(|e|, k, draws));
      if |result| < k {
        result := result + [elem];
        SlotsFill(|e| + 1, k, draws);
        e := e + [elem];
        continue;
      }
      NextDraw(old(rng.seed), i, k);
      var j := rng.Uniform(i);
      SlotsExtend(|e|, k, draws, i, j);
      SlotsDraw(|e| + 1, k, draws[i := j]);
      draws := draws[i := j];
      if j < k {
        PickReplaced(e, elem, Slots(|e|, k, draws), j);
        result := result[j := elem];
      }
      e := e + [elem];
    }
    assert c[..|c|] == c;
    DrawsAre(draws, old(rng.seed), |e|, k);
  }

  /** What a caller gets, whatever was drawn: min(k, eligible) elements from distinct eligible positions,
      none to be avoided, and all of them in order when they fit. */
  lemma SampleGuarantee<T>(c: seq<T>, k: nat, avoid: set<T>, draws: map<nat, nat>)
    ensures
      var e := Eligible(c, avoid);
      var slots := Slots(|e|, k, draws);
      && Below(slots, |e|)
      && Distinct(slots)
      && |Pick(e, slots)| == (if |e| < k then |e| else k)
      && (forall x :: x in Pick(e, slots) ==> x in c && x !in avoid)
      && (|e| <= k ==> Pick(e, slots) == e)
  {
    var e := Eligible(c, avoid);
    SlotsShape(|e|, k, draws);
    EligibleMembers(c, avoid);
    var sample := Pick(e, Slots(|e|, k, draws));
    forall x | x in sample ensures x in c && x !in avoid {
      var i :| 0 <= i < |sample| && sample[i] == x;
      assert x in e;
    }
  }

  /** The draws for n eligible elements and k slots: one for each element that finds the reservoir full. */
  ghost predicate LegalDraws(draws: map<nat, nat>, n: nat, k: nat) {
    (forall i :: i in draws <==> k < i <= n) && (forall i :: i in draws ==> draws[i] < i)
  }

  /** If the last draw is 0, the last element comes to stand in front of an earlier one. */
  lemma LastInFront(n: nat, k: nat, draws: map<nat, nat>)
    requires k >= 2 && n > k && LegalDraws(draws, n, k) && draws[n] == 0
    ensures !Ascending(Slots(n, k, draws))
  {
    SlotsShape(n - 1, k, draws);
    SlotsDraw(n, k, draws);
    var before := Slots(n - 1, k, draws);
    hide Slots;
    var after := before[0 := n - 1];
    assert after[0] == n - 1 && after[1] == before[1] < n - 1;
  }

  lemma LastDrawIsZero(n: nat, k: nat) returns (draws: map<nat, nat>)
    requires n > k
    ensures LegalDraws(draws, n, k) && draws[n] == 0
  {
    draws := map[];
    for i := k + 1 to n
      invariant LegalDraws(draws, i - 1, k)
    {
      draws := draws[i := i - 1];
    }
    draws := draws[n := 0];
  }

  lemma InOrder(n: nat, k: nat, draws: map<nat, nat>)
    requires n <= k || k <= 1
    ensures Ascending(Slots(n, k, draws))
  {
    SlotsShape(n, k, draws);
  }

  /** The sample keeps the order of the input for every outcome of the draws exactly when nothing is ever
      replaced or there is at most one slot. */
  lemma OrderKeptIff(n: nat, k: nat)
    ensures (forall draws | LegalDraws(draws, n, k) :: Ascending(Slots(n, k, draws))) <==> n <= k || k <= 1
  {
    if n <= k || k <= 1 {
      forall draws | LegalDraws(draws, n, k) ensures Ascending(Slots(n, k, draws)) {
        InOrder(n, k, draws);
      }
    } else {
      var draws := LastDrawIsZero(n, k);
      LastInFront(n, k, draws);
    }
  }

  lemma DrawsAreLegal(seed: nat, n: nat, k: nat)
    ensures LegalDraws(DrawsOf(seed, n, k), n, k)
  {
    hide Iterate;
  }

  /** Every number is t draws after some seed. */
  lemma SeedBefore(v: nat, t: nat) returns (seed: nat)
    requires 1 <= v < M && t <= N
    ensures 1 <= seed < M && Iterate(seed, t) == v
  {
    seed := Iterate(v, N - t);
    IterateRange(v, N - t);
    IterateAdds(v, N - t, t);
    PeriodIsN(v, N);
  }

  /** The same for the draws that the generator really makes: every seed keeps the order exactly in these cases. */
  lemma SeedsKeepOrderIff(n: nat, k: nat)
    requires n < M
    ensures (forall seed: nat | 1 <= seed < M :: Ascending(Slots(n, k, DrawsOf(seed, n, k)))) <==> n <= k || k <= 1
  {
    if n <= k || k <= 1 {
      forall seed: nat | 1 <= seed < M ensures Ascending(Slots(n, k, DrawsOf(seed, n, k))) {
        InOrder(n, k, DrawsOf(seed, n, k));
      }
    } else {
      var seed := SeedBefore(n, n - k);
      DrawsAreLegal(seed, n, k);
      hide Slots, Iterate;
      assert DrawsOf(seed, n, k)[n] == n % n == 0;
      LastInFront(n, k, DrawsOf(seed, n, k));
    }
  }

  /** One such seed: two of three elements come out as the third and the second. */
  lemma SampleOutOfOrder()
    ensures Slots(3, 2, DrawsOf(2075547353, 3, 2)) == [2, 1]
  {
    var draws := DrawsOf(2075547353, 3, 2);
    assert Iterate(2075547353, 0) == 2075547353 && Step(2075547353) == 3;
    assert draws[3] == Iterate(2075547353, 1) % 3 == 0;
    assert Slots(0, 2, draws) == [] && Slots(1, 2, draws) == [0] && Slots(2, 2, draws) == [0, 1];
  }
}
