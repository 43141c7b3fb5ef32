// A certificate for large primes: when a power of b with a large prime exponent q is 1 modulo
// n, and b - 1 has no factor in common with n, every divisor of n is at least q.
module Primality {
  import opened Bits
  import opened Finite
  import opened Probing

  function Times(x: nat, y: nat, r: nat): (z: nat)
    requires r > 0
    ensures z < r
  {
    x * y % r
  }

  function Power(b: nat, k: nat, r: nat): (x: nat)
    requires r > 0
    ensures x < r
  {
    if k == 0 then 1 % r else Times(Power(b, k - 1, r), b, r)
  }

  // ---- remainders ---------------------------------------------------------------------

  lemma ModPlus(r: nat, a: nat, x: nat)
    requires r > 0
    ensures (r * a + x) % r == x % r
  {
    Spread(r, a, x / r);
    DivUnique(r * a + x, r, a + x / r, x % r);
  }

  lemma Spread(r: nat, a: nat, c: nat)
    ensures r * (a + c) == r * a + r * c
  {
  }

  lemma Swap(x: nat, y: nat, z: nat)
    ensures x * (y * z) == y * (x * z)
  {
  }

  lemma Associate(x: nat, y: nat, z: nat)
    ensures x * y * z == x * (y * z)
  {
  }

  lemma Commute(x: nat, y: nat)
    ensures x * y == y * x
  {
  }

  // Remainders can be taken early.
  lemma ModLate(x: nat, y: nat, r: nat)
    requires r > 0
    ensures Times(x, y % r, r) == Times(x, y, r)
  {
    var q, s := y / r, y % r;
    assert x * y == r * (x * q) + x * s by {
      Spread(x, r * q, s);
      Swap(x, r, q);
    }
    ModPlus(r, x * q, x * s);
  }

  lemma TimesCommutes(x: nat, y: nat, r: nat)
    requires r > 0
    ensures Times(x, y, r) == Times(y, x, r)
  {
    Commute(x, y);
  }

  lemma TimesAssociates(x: nat, y: nat, z: nat, r: nat)
    requires r > 0
    ensures Times(Times(x, y, r), z, r) == Times(x, Times(y, z, r), r)
  {
    ModLate(z, x * y, r);
    ModLate(x, y * z, r);
    Associate(x, y, z);
    Commute(x * y, z);
    Commute(x * y % r, z);
  }

  lemma TimesOne(x: nat, r: nat)
    requires x < r
    ensures Times(x, 1, r) == x == Times(1, x, r)
  {
  }

  // ---- powers -------------------------------------------------------------------------

  lemma {:induction false} PowerAdd(b: nat, i: nat, j: nat, r: nat)
    requires r > 1
    ensures Power(b, i + j, r) == Times(Power(b, i, r), Power(b, j, r), r)
  {
    hide *;
    if j == 0 {
      FirstPower(b, r);
      TimesOne(Power(b, i, r), r);
    } else {
      PowerAdd(b, i, j - 1, r);
      TimesAssociates(Power(b, i, r), Power(b, j - 1, r), b, r);
      NextPower(b, j - 1, r);
      NextPower(b, i + (j - 1), r);
      assert i + j == i + (j - 1) + 1 && j == j - 1 + 1;
    }
  }

  lemma NextPower(b: nat, k: nat, r: nat)
    requires r > 0
    ensures Power(b, k + 1, r) == Times(Power(b, k, r), b, r)
  {
    hide Times;
  }

  // A multiple of an exponent that gives 1 gives 1.
  lemma {:induction false} PowerMultiple(b: nat, k: nat, t: nat, e: nat, r: nat)
    requires r > 1 && e == k * t && Power(b, k, r) == 1
    ensures Power(b, e, r) == 1
  {
    hide Times;
    if t > 0 {
      Spread(k, t - 1, 1);
      PowerMultiple(b, k, t - 1, e - k, r);
      PowerAdd(b, e - k, k, r);
      TimesOne(1, r);
    }
  }

  // If a prime exponent and a smaller one give 1, b itself is 1: the smaller exponent can be
  // replaced by the remainder of the prime divided by it, down to exponent 1.
  lemma {:induction false} SmallExponent(b: nat, k: nat, q: nat, r: nat)
    requires r > 1 && IsPrime(q) && 0 < k < q && Power(b, k, r) == 1 && Power(b, q, r) == 1
    ensures b % r == 1
    decreases k
  {
    if k == 1 {
      FirstPower(b, r);
    } else {
      hide Power;
      var t, s, e := q / k, q % k, q - q % k;
      ModSplit(q, k);
      assert 0 < s < k;
      PowerMultiple(b, k, t, e, r);
      PowerAdd(b, e, s, r);
      TimesOne(Power(b, s, r), r);
      SmallExponent(b, s, q, r);
    }
  }

  lemma FirstPower(b: nat, r: nat)
    requires r > 1
    ensures Power(b, 0, r) == 1 && Power(b, 1, r) == b % r
  {
    assert Power(b, 0, r) == 1;
    assert 1 * b == b;
  }

  // Powers below a prime exponent that gives 1 are different.
  lemma PowersDiffer(b: nat, i: nat, j: nat, q: nat, r: nat)
    requires r > 1 && IsPrime(q) && i < j < q && Power(b, q, r) == 1 && b % r != 1
    ensures Power(b, i, r) != Power(b, j, r)
  {
    hide Power, Times;
    if Power(b, i, r) == Power(b, j, r) {
      PowerAdd(b, q - i, i, r);
      PowerAdd(b, q - i, j, r);
      PowerAdd(b, q, j - i, r);
      assert q - i + i == q && q - i + j == q + (j - i);
      TimesOne(Power(b, j - i, r), r);
      SmallExponent(b, j - i, q, r);
    }
  }

  ghost function Powers(b: nat, n: nat, r: nat): set<nat>
    requires r > 0
  {
    set i: nat | i < n :: Power(b, i, r)
  }

  lemma {:induction false} PowersSize(b: nat, n: nat, q: nat, r: nat)
    requires r > 1 && IsPrime(q) && n <= q && Power(b, q, r) == 1 && b % r != 1
    ensures |Powers(b, n, r)| == n
  {
    hide Power;
    if n > 0 {
      PowersSize(b, n - 1, q, r);
      forall i: nat | i < n - 1
        ensures Power(b, i, r) != Power(b, n - 1, r)
      {
        PowersDiffer(b, i, n - 1, q, r);
      }
      assert Powers(b, n, r) == Powers(b, n - 1, r) + {Power(b, n - 1, r)};
    }
  }

  // So there are at least q remainders.
  lemma DivisorAtLeast(b: nat, q: nat, r: nat)
    requires r > 1 && IsPrime(q) && Power(b, q, r) == 1 && b % r != 1
    ensures r >= q
  {
    hide Power;
    PowersSize(b, q, q, r);
    forall x | x in Powers(b, q, r)
      ensures x in Slots(r)
    {
    }
    SubsetSize(Powers(b, q, r), Slots(r));
  }

  ghost predicate Splits(n: nat, r: nat, s: nat) {
    n == r * s
  }

  // Two numbers with no factor in common, by Bezout's identity.
  ghost predicate Coprime(a: nat, n: nat, u: nat, v: nat) {
    u * a == v * n + 1
  }

  // Powers modulo n determine powers modulo a divisor of n.
  lemma {:induction false} PowerDivisor(b: nat, k: nat, n: nat, r: nat, s: nat)
    requires r > 1 && s > 0 && Splits(n, r, s) && n > 1
    ensures Power(b, k, n) % r == Power(b, k, r)
  {
    if k == 0 {
      assert Power(b, 0, n) == 1;
    } else {
      var x := Power(b, k - 1, n);
      PowerDivisor(b, k - 1, n, r, s);
      TimesDivisor(x, b, n, r, s);
      hide Times;
    }
  }

  lemma TimesDivisor(x: nat, b: nat, n: nat, r: nat, s: nat)
    requires r > 1 && s > 0 && n > 0 && Splits(n, r, s)
    ensures Times(x, b, n) % r == Times(x % r, b, r)
  {
    hide Times;
    var y := x * b;
    TimesIs(x, b, n, y);
    TimesIs(x, b, r, y);
    ModTwice(y, n, r, s);
    TimesCommutes(x, b, r);
    ModLate(b, x, r);
    TimesCommutes(b, x % r, r);
  }

  lemma TimesIs(x: nat, y: nat, r: nat, z: nat)
    requires r > 0 && z == x * y
    ensures Times(x, y, r) == z % r
  {
  }

  // A remainder of n has the remainder of the whole modulo a divisor of n.
  lemma ModTwice(y: nat, n: nat, r: nat, s: nat)
    requires r > 1 && s > 0 && n > 0 && Splits(n, r, s)
    ensures y % n % r == y % r
  {
    var q, m := y / n, y % n;
    ModSplit(y, n);
    Associate(r, s, q);
    ModPlus(r, s * q, m);
  }

  // No divisor of n divides b - 1 when u * (b - 1) == v * n + 1.
  lemma NotOne(b: nat, n: nat, u: nat, v: nat, r: nat, s: nat)
    requires r > 1 && Splits(n, r, s) && b > 0 && Coprime(b - 1, n, u, v)
    ensures b % r != 1
  {
    if b % r == 1 {
      var t := b / r;
      assert b - 1 == r * t;
      assert u * (r * t) == r * (u * t) by {
        Swap(u, r, t);
      }
      assert v * (r * s) == r * (v * s) by {
        Swap(v, r, s);
      }
      assert r * (u * t - v * s) == r * (u * t) - r * (v * s);
      SmallNotMultiple(r, 1, u * t - v * s);
    }
  }

  // The certificate.
  lemma LargePrime(n: nat, q: nat, b: nat, u: nat, v: nat)
    requires n > 1 && IsPrime(q) && q * q > n
    requires b > 0 && Power(b, q, n) == 1 && u * (b - 1) == v * n + 1
    ensures IsPrime(n)
  {
    hide Power, Times;
    forall d | 1 < d < n
      ensures n % d != 0
    {
      if n % d == 0 {
        var s := n / d;
        ModSplit(n, d);
        assert n == d * s;
        CoFactor(n, d, s);
        AtLeast(n, q, b, u, v, d, s);
        Commute(d, s);
        AtLeast(n, q, b, u, v, s, d);
        Larger(q, d, s);
      }
    }
  }

  lemma CoFactor(n: nat, d: nat, s: nat)
    requires n == d * s && 1 < d < n
    ensures s > 1
  {
    if s <= 1 {
      AtMostOnce(d, s);
    }
  }

  lemma AtMostOnce(d: nat, s: nat)
    requires s <= 1
    ensures d * s <= d
  {
  }

  lemma AtLeast(n: nat, q: nat, b: nat, u: nat, v: nat, r: nat, s: nat)
    requires IsPrime(q) && b > 0 && n > 1 && Power(b, q, n) == 1 && Coprime(b - 1, n, u, v)
    requires r > 1 && s > 1 && Splits(n, r, s)
    ensures r >= q
  {
    hide *;
    PowerDivisor(b, q, n, r, s);
    NotOne(b, n, u, v, r, s);
    DivisorAtLeast(b, q, r);
  }

  lemma Larger(q: nat, d: nat, s: nat)
    requires d >= q && s >= q
    ensures d * s >= q * q
  {
    Widen(q, q, d);
    Widen(d, q, s);
    Commute(q, d);
  }

  lemma Widen(a: nat, c: nat, d: nat)
    requires c <= d
    ensures a * c <= a * d
  {
    Spread(a, c, d - c);
  }

  // Reaching a power by squaring and multiplying.
  lemma Squared(b: nat, k: nat, n: nat, x: nat)
    requires n > 1 && Power(b, k, n) == x
    ensures Power(b, 2 * k, n) == Times(x, x, n)
    ensures Power(b, 2 * k + 1, n) == Times(Times(x, x, n), b, n)
  {
    hide Times;
    PowerAdd(b, k, k, n);
  }
}
