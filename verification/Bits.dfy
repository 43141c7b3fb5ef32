// Bitwise operations on unsigned machine words, as the key macros of include/ipm.h use
// them.  A word is a natural number; shifting left by k multiplies by Pow2(k), shifting
// right divides by it.
module Bits {

  const WORD: nat := 0x1_0000_0000_0000_0000

  // A value as it is kept in a 64-bit unsigned word.
  function Word(x: int): nat {
    x % WORD
  }

  function Pow2(n: nat): (p: nat)
    ensures p >= 1
  {
    if n == 0 then 1 else 2 * Pow2(n - 1)
  }

  function And(a: nat, b: nat): nat
    decreases a
  {
    if a == 0 then 0
    else 2 * And(a / 2, b / 2) + (if a % 2 == 1 && b % 2 == 1 then 1 else 0)
  }

  function Or(a: nat, b: nat): nat
    decreases a + b
  {
    if a + b == 0 then 0
    else 2 * Or(a / 2, b / 2) + (if a % 2 == 1 || b % 2 == 1 then 1 else 0)
  }

  function Xor(a: nat, b: nat): nat
    decreases a + b
  {
    if a + b == 0 then 0 else 2 * Xor(a / 2, b / 2) + (if a % 2 != b % 2 then 1 else 0)
  }

  lemma {:induction false} Pow2Add(m: nat, n: nat)
    ensures Pow2(m + n) == Pow2(m) * Pow2(n)
  {
    if m > 0 {
      Pow2Add(m - 1, n);
    }
  }

  lemma {:induction false} Pow2Monotone(m: nat, n: nat)
    requires m <= n
    ensures Pow2(m) <= Pow2(n)
  {
    if m < n {
      Pow2Monotone(m, n - 1);
    }
  }

  // Quotient and remainder are unique.
  lemma MulUnique(d: int, q: int, r: int, q0: int, r0: int)
    requires 0 <= r < d && 0 <= r0 < d
    requires d * q + r == d * q0 + r0
    ensures q == q0 && r == r0
  {
    if q > q0 {
      MulAtLeast(d, q - q0);
    } else if q < q0 {
      MulAtLeast(d, q0 - q);
    }
  }

  lemma {:induction false} MulAtLeast(d: int, k: int)
    requires d >= 0 && k >= 1
    ensures d * k >= d
  {
  }

  lemma DivUnique(x: int, d: int, q: int, r: int)
    requires d > 0 && 0 <= r < d && x == d * q + r
    ensures x / d == q && x % d == r
  {
    MulUnique(d, q, r, x / d, x % d);
  }

  // Or of two words whose bits do not overlap is their sum.
  lemma {:induction false} OrDisjoint(a: nat, k: nat, b: nat)
    requires b < Pow2(k)
    ensures Or(a * Pow2(k), b) == a * Pow2(k) + b
  {
    hide Or;
    if k == 0 {
      OrZero(a);
    } else {
      AssocTwo(a, Pow2(k - 1));
      OrDisjoint(a, k - 1, b / 2);
      OrStep(a * Pow2(k), b, a * Pow2(k - 1), b / 2, b % 2);
    }
  }

  lemma OrStep(x: nat, y: nat, u: nat, v: nat, bit: nat)
    requires x == 2 * u && y == 2 * v + bit && bit < 2
    ensures Or(x, y) == 2 * Or(u, v) + bit
  {
    assert x / 2 == u && y / 2 == v && x % 2 == 0 && y % 2 == bit;
    if x + y == 0 {
      assert Or(u, v) == 0;
    }
  }

  lemma {:induction false} XorZero(a: nat)
    ensures Xor(a, 0) == a
  {
    if a > 0 {
      XorZero(a / 2);
    }
  }

  lemma XorStep(a: nat, b: nat, u: nat, x: nat, v: nat, y: nat)
    requires a == 2 * u + x && x < 2 && b == 2 * v + y && y < 2
    ensures Xor(a, b) == 2 * Xor(u, v) + (if x != y then 1 else 0)
  {
    assert a / 2 == u && a % 2 == x && b / 2 == v && b % 2 == y;
    if a + b == 0 {
      assert Xor(u, v) == 0;
    }
  }

  // The low k bits of one word are exchanged without touching the rest.
  lemma {:induction false} XorLow(hi: nat, lo: nat, c: nat, k: nat)
    requires lo < Pow2(k) && c < Pow2(k)
    ensures Xor(hi * Pow2(k) + lo, c) == hi * Pow2(k) + Xor(lo, c)
    decreases k
  {
    hide Xor;
    if k == 0 {
      XorZero(hi);
      XorZero(0);
    } else {
      var h, x, y := Pow2(k - 1), lo % 2, c % 2;
      AssocTwo(hi, h);
      XorLow(hi, lo / 2, c / 2, k - 1);
      XorStep(hi * Pow2(k) + lo, c, hi * h + lo / 2, x, c / 2, y);
      XorStep(lo, c, lo / 2, x, c / 2, y);
    }
  }

  lemma {:induction false} OrZero(a: nat)
    ensures Or(a, 0) == a
  {
    if a > 0 {
      OrZero(a / 2);
    }
  }

  // Masking with w ones keeps the low w bits f of a word.
  lemma {:induction false} AndLow(a: nat, w: nat, f: nat)
    requires f < Pow2(w)
    ensures And(a * Pow2(w) + f, Pow2(w) - 1) == f
    decreases w
  {
    hide And;
    if w == 0 {
      AndZero(a * Pow2(w) + f);
    } else {
      AssocTwo(a, Pow2(w - 1));
      AndLow(a, w - 1, f / 2);
      AndStep(a * Pow2(w) + f, Pow2(w) - 1, a * Pow2(w - 1) + f / 2, f % 2, Pow2(w - 1) - 1, 1);
    }
  }

  lemma AndStep(a: nat, b: nat, u: nat, x: nat, v: nat, y: nat)
    requires a == 2 * u + x && x < 2 && b == 2 * v + y && y < 2
    ensures And(a, b) == 2 * And(u, v) + x * y
  {
    assert a / 2 == u && a % 2 == x && b / 2 == v && b % 2 == y;
    if a == 0 {
      assert And(u, v) == 0;
    }
    assert x * y == if x == 1 && y == 1 then 1 else 0;
  }

  lemma {:induction false} AndZero(x: nat)
    ensures And(x, 0) == 0
  {
    if x > 0 {
      AndZero(x / 2);
    }
  }

  // Words shifted left together are masked like the words themselves, whatever comes in
  // below the mask.
  lemma {:induction false} AndShifted(y: nat, m: nat, k: nat, low: nat)
    requires low < Pow2(k)
    ensures And(y * Pow2(k) + low, m * Pow2(k)) == And(y, m) * Pow2(k)
    decreases k
  {
    hide And;
    if k == 0 {
      assert y * Pow2(k) + low == y && m * Pow2(k) == m;
    } else {
      var p := Pow2(k - 1);
      AssocTwo(y, p);
      AssocTwo(m, p);
      AssocTwo(And(y, m), p);
      AndShifted(y, m, k - 1, low / 2);
      AndStep(y * Pow2(k) + low, m * Pow2(k), y * p + low / 2, low % 2, m * p, 0);
    }
  }

  lemma AssocTwo(x: nat, p: nat)
    ensures x * (2 * p) == 2 * (x * p)
  {
  }

  lemma AndLowOf(x: nat, mask: nat, a: nat, w: nat, f: nat)
    requires f < Pow2(w) && x == a * Pow2(w) + f && mask == Pow2(w) - 1
    ensures And(x, mask) == f
  {
    AndLow(a, w, f);
  }

  // Masking with w ones starting at bit k keeps the field f and leaves it in place.
  lemma AndFieldOf(x: nat, mask: nat, a: nat, w: nat, f: nat, k: nat, low: nat)
    requires f < Pow2(w) && low < Pow2(k)
    requires x == (a * Pow2(w) + f) * Pow2(k) + low && mask == (Pow2(w) - 1) * Pow2(k)
    ensures And(x, mask) == f * Pow2(k)
  {
    hide *;
    var y, m := a * Pow2(w) + f, Pow2(w) - 1;
    AndShifted(y, m, k, low);
    AndLowOf(y, m, a, w, f);
  }

  lemma AndAll(x: nat, mask: nat, w: nat)
    requires x < Pow2(w) && mask == Pow2(w) - 1
    ensures And(x, mask) == x
  {
    AndLow(0, w, x);
  }

  lemma OrDisjointOf(x: nat, a: nat, k: nat, b: nat)
    requires b < Pow2(k) && x == a * Pow2(k)
    ensures Or(x, b) == x + b
  {
    OrDisjoint(a, k, b);
  }

  // x shifted right by d bits.
  function Shift(x: nat, d: nat): nat {
    if d == 0 then x else Shift(x / 2, d - 1)
  }

  // x with its low d bits cleared.
  function RoundDown(x: nat, d: nat): (r: nat)
    ensures r <= x
  {
    if d == 0 then x else 2 * RoundDown(x / 2, d - 1)
  }

  // RoundDown(x, d) is the multiple of Pow2(d) closest to x from below.
  lemma {:induction false} RoundDownIs(x: nat, d: nat)
    ensures RoundDown(x, d) == Shift(x, d) * Pow2(d)
    ensures RoundDown(x, d) <= x < RoundDown(x, d) + Pow2(d)
  {
    if d > 0 {
      RoundDownIs(x / 2, d - 1);
      AssocTwo(Shift(x, d), Pow2(d - 1));
    }
  }

  lemma ShiftIff(x: nat, d: nat, index: nat)
    ensures Shift(x, d) == index <==> index * Pow2(d) <= x < index * Pow2(d) + Pow2(d)
  {
    hide RoundDown, Shift, Pow2;
    var p, q := Pow2(d), Shift(x, d);
    RoundDownIs(x, d);
    if index * p <= x < index * p + p {
      MulUnique(p, q, x - q * p, index, x - index * p);
    }
  }

  // Rounding at a coarser step forgets any rounding done at a finer one.
  lemma {:induction false} RoundTwice(x: nat, d: nat, e: nat)
    requires d <= e
    ensures Shift(RoundDown(x, d), e) == Shift(x, e)
    ensures RoundDown(RoundDown(x, d), e) == RoundDown(x, e)
  {
    if d > 0 {
      var y := RoundDown(x / 2, d - 1);
      assert RoundDown(x, d) / 2 == y;
      RoundTwice(x / 2, d - 1, e - 1);
    }
  }

  lemma RoundSame(x: nat, y: nat, d: nat)
    ensures RoundDown(x, d) == RoundDown(y, d) <==> Shift(x, d) == Shift(y, d)
  {
    RoundDownIs(x, d);
    RoundDownIs(y, d);
    RoundTwice(x, d, d);
    RoundTwice(y, d, d);
  }

  // Masking with the ones from bit d up to bit w clears the low d bits.
  lemma {:induction false} AndHigh(x: nat, w: nat, d: nat)
    requires d <= w && x < Pow2(w)
    ensures Pow2(d) <= Pow2(w) && And(x, Pow2(w) - Pow2(d)) == RoundDown(x, d)
    decreases d
  {
    Pow2Monotone(d, w);
    if d == 0 {
      AndAll(x, Pow2(w) - 1, w);
    } else {
      var half := Pow2(w - 1) - Pow2(d - 1);
      AndHigh(x / 2, w - 1, d - 1);
      EvenMaskRound(x, Pow2(w) - Pow2(d), half, d);
    }
  }

  lemma EvenMaskRound(x: nat, mask: nat, half: nat, d: nat)
    requires d > 0 && mask == 2 * half && And(x / 2, half) == RoundDown(x / 2, d - 1)
    ensures And(x, mask) == RoundDown(x, d)
  {
    hide And;
    AndStep(x, mask, x / 2, x % 2, half, 0);
  }

  // The powers the key layout uses.
  lemma Pow2Table()
    ensures Pow2(8) == 0x100 && Pow2(16) == 0x1_0000 && Pow2(31) == 0x8000_0000
    ensures Pow2(32) == 0x1_0000_0000 && Pow2(48) == 0x1_0000_0000_0000
    ensures Pow2(56) == 0x100_0000_0000_0000 && Pow2(64) == 0x1_0000_0000_0000_0000
  {
    assert Pow2(4) == 16;
    Pow2Add(4, 4);
    Pow2Add(8, 8);
    Pow2Add(16, 16);
    Pow2Add(16, 32);
    Pow2Add(8, 48);
    Pow2Add(8, 56);
    assert Pow2(32) == 2 * Pow2(31);
  }
}
