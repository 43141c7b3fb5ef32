// Every table size a build can choose is prime (include/ipm_sizes.h).
module TableSizes {
  import opened Bits
  import opened Primality
  import opened Probing

  const MAXSIZE_HASH_XTINY: nat := 317
  const MAXSIZE_HASH_TINY: nat := 3257
  const MAXSIZE_HASH: nat := 32573
  const MAXSIZE_HASH_BIG: nat := 9101977

  lemma XtinyPrime()
    ensures IsPrime(MAXSIZE_HASH_XTINY)
  {
    forall d: int | 1 < d < 317
      ensures 317 % d != 0
    {
      XtinyDivisor(d);
    }
  }

  lemma XtinyDivisor(d: int)
    requires 1 < d < 317
    ensures 317 % d != 0
  {
  }

  lemma TinyPrime()
    ensures IsPrime(MAXSIZE_HASH_TINY)
  {
    forall d: int | 1 < d < 3257
      ensures 3257 % d != 0
    {
      TinyDivisor(d);
    }
  }

  lemma TinyDivisor(d: int)
    requires 1 < d < 3257
    ensures 3257 % d != 0
  {
  }

  lemma DefaultPrime()
    ensures IsPrime(MAXSIZE_HASH)
  {
    forall d: int | 1 < d < 32573
      ensures 32573 % d != 0
    {
      DefaultDivisor(d);
    }
  }

  lemma DefaultDivisor(d: int)
    requires 1 < d < 32573
    ensures 32573 % d != 0
  {
  }

  // The big size by a certificate: 29173 is a prime larger than its root, and the 29173rd
  // power of 2813324 is 1 modulo it.
  lemma BigPrime()
    ensures IsPrime(MAXSIZE_HASH_BIG)
  {
    forall d: int | 1 < d < 29173
      ensures 29173 % d != 0
    {
      CertificateDivisor(d);
    }
    BigPower(2813324, MAXSIZE_HASH_BIG);
    LargePrime(MAXSIZE_HASH_BIG, 29173, 2813324, 7322562, 2263325);
  }

  lemma CertificateDivisor(d: int)
    requires 1 < d < 29173
    ensures 29173 % d != 0
  {
  }

  // One more binary digit of the exponent: the square of x leaves z, and if the digit is 1
  // the product of z and b leaves y.
  lemma Digit(b: nat, k: nat, n: nat, x: nat, q1: nat, z: nat, digit: nat, q2: nat, y: nat)
    requires n > 1 && Power(b, k, n) == x && digit < 2 && z < n && y < n
    requires x * x == n * q1 + z && if digit == 0 then y == z else z * b == n * q2 + y
    ensures Power(b, 2 * k + digit, n) == y
  {
    hide Power;
    Squared(b, k, n, x);
    DivUnique(x * x, n, q1, z);
    if digit == 1 {
      DivUnique(z * b, n, q2, y);
    }
  }

  lemma BigPower(b: nat, n: nat)
    requires b == 2813324 && n == MAXSIZE_HASH_BIG
    ensures Power(b, 29173, n) == 1
  {
    hide Power;
    FirstPower(b, n);
    Digit(b, 1, n, 2813324, 869568, 3993040, 1, 1234206, 639698);
    Digit(b, 3, n, 639698, 44958, 6849238, 1, 2117026, 3686710);
    Digit(b, 7, n, 3686710, 1493283, 3103609, 0, 0, 3103609);
    Digit(b, 14, n, 3103609, 1058274, 3217183, 0, 0, 3217183);
    Digit(b, 28, n, 3217183, 1137144, 7921801, 0, 0, 7921801);
    Digit(b, 56, n, 7921801, 6894648, 3564505, 1, 1101750, 4304870);
    Digit(b, 113, n, 4304870, 2036030, 7485590, 1, 2313716, 184628);
    Digit(b, 227, n, 184628, 3745, 594519, 1, 183759, 4379613);
    Digit(b, 455, n, 4379613, 2107345, 4308704, 1, 1331774, 4054898);
    Digit(b, 911, n, 4054898, 1806442, 4254570, 1, 1315042, 1852646);
    Digit(b, 1823, n, 1852646, 377093, 5388455, 0, 0, 5388455);
    Digit(b, 3646, n, 5388455, 3190015, 4127370, 1, 1275726, 367578);
    Digit(b, 7293, n, 367578, 14844, 3839496, 0, 0, 3839496);
    Digit(b, 14586, n, 3839496, 1619618, 3749230, 1, 1158847, 1);
  }
}
