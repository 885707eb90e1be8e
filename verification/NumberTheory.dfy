/** The little number theory that the period of the random generator rests on. */
module NumberTheory {
  import opened Bitwise

  ghost predicate Prime(p: nat) {
    p >= 2 && forall d: nat :: 2 <= d < p ==> p % d != 0
  }

  lemma MultipleDivides(d: nat, q: int)
    requires d > 0
    ensures (d * q) % d == 0
  {
    DivModUnique(d * q, d, q, 0);
  }

  lemma Cofactor(n: nat, d: nat)
    requires d > 0 && n % d == 0
    ensures n == d * (n / d)
  {
  }

  lemma Bezout(a: nat, b: nat) returns (x: int, y: int, g: nat)
    requires a > 0
    ensures g > 0 && a % g == 0 && b % g == 0 && g == a * x + b * y
    decreases b
  {
    if b == 0 {
      x, y, g := 1, 0, a;
      MultipleDivides(a, 1);
      MultipleDivides(a, 0);
    } else {
      var q, r := a / b, a % b;
      var x', y';
      x', y', g := Bezout(b, r);
      x, y := y', x' - q * y';
      DividesSum(a, b, q, r, g);
      BackSubstitute(a, b, q, r, x', y');
    }
  }

  lemma CommonDivisor(q: nat, g: nat, u: nat, v: nat)
    requires g > 0
    ensures (q * (g * u) + g * v) % g == 0
  {
    assert q * (g * u) + g * v == g * (q * u + v);
    MultipleDivides(g, q * u + v);
  }

  lemma DividesSum(a: nat, b: nat, q: nat, r: nat, g: nat)
    requires g > 0 && b % g == 0 && r % g == 0 && a == q * b + r
    ensures a % g == 0
  {
    Cofactor(b, g);
    Cofactor(r, g);
    CommonDivisor(q, g, b / g, r / g);
  }

  lemma BackSubstitute(a: nat, b: nat, q: nat, r: nat, x: int, y: int)
    requires a == q * b + r
    ensures b * x + r * y == a * y + b * (x - q * y)
  {
    assert r * y == a * y - (q * b) * y;
    assert b * (x - q * y) == b * x - b * (q * y);
    assert (q * b) * y == b * (q * y);
  }

  /** If q divides p * m for a prime p that does not divide q, then q divides m. */
  lemma PrimeStripped(q: nat, p: nat, m: nat)
    requires q > 0 && Prime(p) && (p * m) % q == 0 && q % p != 0
    ensures m % q == 0
  {
    var x, y, g := Bezout(p, q);
    DivisorIsSmall(p, g);
    Cofactor(p * m, q);
    var k := (p * m) / q;
    Combine(p, q, m, x, y, k);
    MultipleDivides(q, k * x + m * y);
  }

  lemma DivisorIsSmall(n: nat, d: nat)
    requires n > 0 && d > 0 && n % d == 0
    ensures d <= n
  {
    Cofactor(n, d);
    if n / d > 0 {
      assert d * (n / d) >= d;
    }
  }

  lemma Combine(p: nat, q: nat, m: nat, x: int, y: int, k: nat)
    requires p * x + q * y == 1 && p * m == q * k
    ensures m == q * (k * x + m * y)
  {
    assert m == m * (p * x + q * y);
    assert m * (p * x) == (p * m) * x;
    assert (q * k) * x == q * (k * x);
    assert m * (q * y) == q * (m * y);
    assert m * (p * x + q * y) == m * (p * x) + m * (q * y);
    assert q * (k * x + m * y) == q * (k * x) + q * (m * y);
  }

  // ----- recognising small primes

  predicate NoDivisorUpTo(p: nat, k: nat) {
    k < 2 || (p % k != 0 && NoDivisorUpTo(p, k - 1))
  }

  lemma {:induction false} NoDivisorBelow(p: nat, k: nat, d: nat)
    requires NoDivisorUpTo(p, k) && 2 <= d <= k
    ensures p % d != 0
  {
    if d < k {
      NoDivisorBelow(p, k - 1, d);
    }
  }

  /** Trial division up to the square root is enough. */
  lemma TrialDivision(p: nat, k: nat)
    requires p >= 2 && NoDivisorUpTo(p, k) && p < (k + 1) * (k + 1)
    ensures Prime(p)
  {
    forall d: nat | 2 <= d < p ensures p % d != 0 {
      if p % d == 0 {
        Cofactor(p, d);
        var e := p / d;
        if d <= k {
          NoDivisorBelow(p, k, d);
        } else {
          CofactorBelow(p, d, e, k);
          MultipleDivides(e, d);
          NoDivisorBelow(p, k, e);
        }
      }
    }
  }

  lemma CofactorBelow(p: nat, d: nat, e: nat, k: nat)
    requires p == d * e && k < d < p && p < (k + 1) * (k + 1)
    ensures 2 <= e <= k
  {
    MulMono(k + 1, d, e);
    MulMono(k + 1, e, k + 1);
  }

  // ----- counting

  /** An injective sequence of n values in 1..n takes every value. */
  lemma Pigeonhole(values: set<nat>, n: nat)
    requires |values| == n && forall v :: v in values ==> 1 <= v <= n
    ensures forall t :: 1 <= t <= n ==> t in values
  {
    RangeMembers(n);
    var rest := Range(n) - values;
    assert values <= Range(n);
    assert |rest| == |Range(n)| - |values|;
    assert rest == {};
    forall t | 1 <= t <= n ensures t in values {
      assert t in Range(n);
    }
  }

  /** The set 1..n. */
  function Range(n: nat): set<nat> {
    if n == 0 then {} else Range(n - 1) + {n}
  }

  lemma {:induction false} RangeMembers(n: nat)
    ensures |Range(n)| == n && forall t: nat :: t in Range(n) <==> 1 <= t <= n
  {
    if n > 0 {
      RangeMembers(n - 1);
    }
  }
}
