// Double hashing: the probe sequence of IPM_HASH_HKEY and why MAXSIZE_HASH must be prime.
module Probing {
  import opened Bits
  import opened Finite

  ghost predicate IsPrime(p: nat) {
    p >= 2 && forall d :: 1 < d < p ==> p % d != 0
  }

  // The slot looked at after c collisions.
  function Probe(p: nat, key: nat, c: nat): (slot: nat)
    requires p >= 3
    ensures slot < p
  {
    (key % p + c * (1 + key % (p - 2))) % p
  }

  // Each collision moves on by the key's own stride.
  lemma ProbeNext(p: nat, key: nat, c: nat)
    requires p >= 3
    ensures Probe(p, key, c + 1) == (Probe(p, key, c) + 1 + key % (p - 2)) % p
  {
    var s := 1 + key % (p - 2);
    OneStride(c, s);
    ModPlusMod(key % p + c * s, s, p);
  }

  lemma OneStride(c: nat, s: nat)
    ensures (c + 1) * s == c * s + s
  {
  }

  lemma ModPlusMod(x: nat, s: nat, p: nat)
    requires p > 0
    ensures (x + s) % p == (x % p + s) % p
  {
    var q, r := x / p, x % p;
    var q2, r2 := (r + s) / p, (r + s) % p;
    TwoQuotients(p, q, q2);
    DivUnique(x + s, p, q + q2, r2);
  }

  lemma TwoQuotients(p: nat, q: nat, q2: nat)
    ensures p * (q + q2) == p * q + p * q2
  {
  }

  lemma ProbeStart(p: nat, key: nat)
    requires p >= 3
    ensures Probe(p, key, 0) == key % p
  {
    SmallMod(key % p, p);
  }

  // A prime does not divide a product of two smaller positive numbers: replacing s by the
  // remainder of p divided by s keeps the product a multiple, down to s == 1.
  lemma {:induction false} NotMultiple(p: nat, k: nat, s: nat, m: int)
    requires IsPrime(p) && 0 < k < p && 0 < s < p
    ensures k * s != p * m
    decreases s
  {
    if s == 1 {
      SmallNotMultiple(p, k, m);
    } else if k * s == p * m {
      var q, r := p / s, p % s;
      assert p == q * s + r;
      Descend(p, k, s, m, q, r);
      NotMultiple(p, k, r, k - q * m);
    }
  }

  lemma SmallNotMultiple(p: nat, k: nat, m: int)
    requires 0 < k < p
    ensures k != p * m
  {
    if m >= 1 {
      assert p * m >= p;
    } else {
      assert p * m <= 0;
    }
  }

  lemma Descend(p: nat, k: nat, s: nat, m: int, q: nat, r: nat)
    requires k * s == p * m && p == q * s + r
    ensures k * r == p * (k - q * m)
  {
    assert k * r == k * p - q * (k * s);
    assert q * (p * m) == p * (q * m);
  }

  // Any p consecutive probes look at different slots, wherever the sequence is entered.
  lemma ProbesDistinct(p: nat, key: nat, c1: nat, c2: nat)
    requires IsPrime(p) && p >= 3 && c1 < c2 < c1 + p
    ensures Probe(p, key, c1) != Probe(p, key, c2)
  {
    var start, step := key % p, 1 + key % (p - 2);
    StepBound(key, p);
    var x, y := start + c1 * step, start + c2 * step;
    if x % p == y % p {
      Apart(p, start, step, c1, c2, x, y);
      NotMultiple(p, c2 - c1, step, y / p - x / p);
    }
  }

  lemma StepBound(key: nat, p: nat)
    requires p >= 3
    ensures 0 < 1 + key % (p - 2) < p
  {
  }

  // Two terms of a progression with the same remainder are a multiple of p apart.
  lemma Apart(p: nat, start: nat, step: nat, c1: nat, c2: nat, x: nat, y: nat)
    requires p > 0 && c1 <= c2 && x == start + c1 * step && y == start + c2 * step && x % p == y % p
    ensures (c2 - c1) * step == p * (y / p - x / p)
  {
    ModSplit(x, p);
    ModSplit(y, p);
    Minus(step, c2, c1);
    Minus(p, y / p, x / p);
  }

  lemma Minus(k: int, a: int, b: int)
    ensures (a - b) * k == a * k - b * k && k * (a - b) == k * a - k * b
  {
  }

  lemma ModSplit(x: nat, p: nat)
    requires p > 0
    ensures x == p * (x / p) + x % p
  {
  }

  // The slots seen in n probes from the c-th on.
  ghost function Seen(p: nat, key: nat, c: nat, n: nat): set<nat>
    requires p >= 3
  {
    set i | c <= i < c + n :: Probe(p, key, i)
  }

  lemma {:induction false} SeenSize(p: nat, key: nat, c: nat, n: nat)
    requires IsPrime(p) && p >= 3 && n <= p
    ensures |Seen(p, key, c, n)| == n
  {
    if n > 0 {
      SeenSize(p, key, c, n - 1);
      var last := Probe(p, key, c + n - 1);
      assert Seen(p, key, c, n) == Seen(p, key, c, n - 1) + {last};
      assert last !in Seen(p, key, c, n - 1) by {
        forall i | c <= i < c + n - 1
          ensures Probe(p, key, i) != last
        {
          ProbesDistinct(p, key, i, c + n - 1);
        }
      }
    }
  }

  // p probes visit every slot of the table.
  lemma ProbesVisit(p: nat, key: nat, c: nat, slot: nat)
    requires IsPrime(p) && p >= 3 && slot < p
    ensures exists i :: c <= i < c + p && Probe(p, key, i) == slot
  {
    SeenSize(p, key, c, p);
    SeenInTable(p, key, c, p);
    SubsetSize(Seen(p, key, c, p), Slots(p));
    assert slot in Slots(p);
  }

  lemma SeenInTable(p: nat, key: nat, c: nat, n: nat)
    requires p >= 3
    ensures Seen(p, key, c, n) <= Slots(p)
  {
  }

  // With a table size that is not prime some key cannot reach slot 0 at all.
  lemma CompositeMisses(p: nat, d: nat, c: nat)
    requires p >= 3 && 1 < d < p && p % d == 0
    ensures Probe(p, d - 1, c) != 0
  {
    DivisorIsSmall(p, d);
    SmallKeyProbe(p, d - 1, c);
    ModSplit(p, d);
    NoMultipleOfSize(p, d, p / d, c);
  }

  lemma SmallKeyProbe(p: nat, key: nat, c: nat)
    requires p >= 3 && key < p - 2
    ensures Probe(p, key, c) == (key + c * (key + 1)) % p
  {
    SmallMod(key, p);
    SmallMod(key, p - 2);
  }

  lemma SmallMod(x: nat, m: nat)
    requires x < m
    ensures x % m == x
  {
  }

  lemma DivisorIsSmall(p: nat, d: nat)
    requires p >= 3 && 1 < d < p && p % d == 0
    ensures d <= p - 2
  {
    ModSplit(p, d);
    if d == p - 1 {
      assert 1 == d * (p / d - 1);
      SmallNotMultiple(d, 1, p / d - 1);
    }
  }

  lemma NoMultipleOfSize(p: nat, d: nat, q: nat, c: nat)
    requires d > 1 && p == d * q && p > 0
    ensures (d - 1 + c * (d - 1 + 1)) % p != 0
  {
    var x := d - 1 + c * d;
    ModSplit(x, p);
    var m := x / p;
    if x % p == 0 {
      assert x == d * q * m;
      assert d * q * m == d * (q * m);
      assert d - 1 == d * (q * m - c);
      SmallNotMultiple(d, d - 1, q * m - c);
    }
  }

  ghost predicate Reaches(p: nat, key: nat, slot: nat)
    requires p >= 3
  {
    exists c :: 0 <= c < p && Probe(p, key, c) == slot
  }

  // Every key reaches every slot exactly when the table size is prime.
  lemma ReachesAllIffPrime(p: nat)
    requires p >= 3
    ensures IsPrime(p) <==> forall key: nat, slot: nat :: slot < p ==> Reaches(p, key, slot)
  {
    if IsPrime(p) {
      forall key: nat, slot: nat | slot < p
        ensures Reaches(p, key, slot)
      {
        ProbesVisit(p, key, 0, slot);
      }
    } else {
      var d :| 1 < d < p && p % d == 0;
      if Reaches(p, d - 1, 0) {
        var c :| 0 <= c < p && Probe(p, d - 1, c) == 0;
        CompositeMisses(p, d, c);
      }
      assert !Reaches(p, d - 1, 0);
    }
  }
}
