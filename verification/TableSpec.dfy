// What the event table stands for, stated on its contents.
module TableSpec {
  import opened Bits
  import opened Finite
  import opened KeyCodec
  import opened Probing
  import opened EventStats

  // ---- occupancy -------------------------------------------------------------------

  ghost function Occupied(t: seq<HashEnt>): set<nat> {
    set i: nat | i < |t| && t[i].key != 0
  }

  lemma OccupiedInsert(t: seq<HashEnt>, i: nat, e: HashEnt)
    requires i < |t| && e.key != 0
    ensures |Occupied(t[i := e])| == |Occupied(t)| + (if t[i].key == 0 then 1 else 0)
  {
    if t[i].key == 0 {
      assert Occupied(t[i := e]) == Occupied(t) + {i};
    } else {
      assert Occupied(t[i := e]) == Occupied(t);
    }
  }

  lemma OccupiedPrefix(t: seq<HashEnt>, n: nat)
    requires n < |t|
    ensures |Occupied(t[..n + 1])| == |Occupied(t[..n])| + (if t[n].key == 0 then 0 else 1)
  {
    if t[n].key == 0 {
      assert Occupied(t[..n + 1]) == Occupied(t[..n]);
    } else {
      assert Occupied(t[..n + 1]) == Occupied(t[..n]) + {n};
    }
  }

  lemma OccupiedPrefixLess(t: seq<HashEnt>, n: nat)
    requires n < |t| && t[n].key != 0
    ensures |Occupied(t[..n])| < |Occupied(t)|
  {
    assert Occupied(t[..n]) + {n} <= Occupied(t);
    SubsetSize(Occupied(t[..n]) + {n}, Occupied(t));
  }

  // Slots a probe sequence found occupied are that many occupied slots.
  lemma SeenOccupied(t: seq<HashEnt>, p: nat, key: nat, c: nat, n: nat)
    requires IsPrime(p) && 3 <= p <= |t| && n <= p
    requires forall i | c <= i < c + n :: t[Probe(p, key, i)].key != 0
    ensures n <= |Occupied(t)|
  {
    SeenSize(p, key, c, n);
    assert Seen(p, key, c, n) <= Occupied(t);
    SubsetSize(Seen(p, key, c, n), Occupied(t));
  }

  // ---- contents --------------------------------------------------------------------

  predicate KeyOk(key: nat, ncalls: nat) {
    key < WORD && 1 <= KeyCall(key) <= ncalls
  }

  ghost predicate TableOk(t: seq<HashEnt>, p: nat, ncalls: nat) {
    && |t| == p + 1
    && t[p].key == 0
    && forall i | 0 <= i < |t| && t[i].key != 0 :: KeyOk(t[i].key, ncalls)
  }

  // The number of entries of a call.
  function Density(t: seq<HashEnt>, call: nat): nat {
    if t == [] then 0
    else Density(t[..|t| - 1], call) + (if KeyCall(t[|t| - 1].key) == call then 1 else 0)
  }

  // The first call with the most entries.
  ghost predicate Densest(t: seq<HashEnt>, call: nat, ncalls: nat) {
    && 1 <= call <= ncalls
    && (forall c | 1 <= c <= ncalls :: Density(t, c) <= Density(t, call))
    && forall c | 1 <= c < call :: Density(t, c) < Density(t, call)
  }

  lemma OneDensest(t: seq<HashEnt>, a: nat, b: nat, ncalls: nat)
    requires Densest(t, a, ncalls) && Densest(t, b, ncalls)
    ensures a == b
  {
    hide Density;
    assert Density(t, a) <= Density(t, b) && Density(t, b) <= Density(t, a);
  }

  lemma {:induction false} DensityPositive(t: seq<HashEnt>, i: nat)
    requires i < |t|
    ensures Density(t, KeyCall(t[i].key)) > 0
  {
    if i < |t| - 1 {
      DensityPositive(t[..|t| - 1], i);
    }
  }

  // ---- precision -------------------------------------------------------------------

  // The size bits still available, over all calls.
  function BitsLeft(drops: seq<nat>): nat {
    if drops == [] then 0
    else
      var d := drops[|drops| - 1];
      BitsLeft(drops[..|drops| - 1]) + (if d < PRECISION_BITS then PRECISION_BITS - d else 0)
  }

  lemma {:induction false} BitsLeftStep(drops: seq<nat>, c: nat)
    requires c < |drops| && drops[c] < PRECISION_BITS
    ensures BitsLeft(drops[c := drops[c] + 1]) == BitsLeft(drops) - 1
  {
    var n := |drops| - 1;
    if c == n {
      assert drops[c := drops[c] + 1][..n] == drops[..n];
    } else {
      assert drops[c := drops[c] + 1][..n] == drops[..n][c := drops[c] + 1];
      BitsLeftStep(drops[..n], c);
    }
  }

  ghost predicate MasksOk(masks: seq<nat>, flags: seq<nat>, drops: seq<nat>) {
    && |masks| == |flags| == |drops|
    && forall c | 0 <= c < |drops| ::
         flags[c] < 0x1_0000 && drops[c] < PRECISION_BITS && masks[c] == MaskWord(flags[c], drops[c])
  }

  // ---- timing bounds ---------------------------------------------------------------

  predicate WallOk(wall: real) {
    0.0 <= wall <= 1000000000000000.0
  }

  predicate Sound(s: Stats) {
    && s.count > 0
    && WallOk(s.tmin) && WallOk(s.tmax)
    && s.tmin <= s.tmax
    && Between(s.count as real, s.tmin, s.total, s.tmax)
  }

  // A total of n times that each lie between two bounds.
  predicate Between(n: real, lo: real, total: real, hi: real) {
    Total(n, lo) <= total <= Total(n, hi)
  }

  function Total(n: real, wall: real): real {
    n * wall
  }

  ghost predicate AllSound(t: seq<HashEnt>) {
    forall i | 0 <= i < |t| && t[i].key != 0 :: Sound(t[i].stats)
  }

  // The table is sound but for one entry that may have been inserted just now.
  ghost predicate SoundBut(t: seq<HashEnt>, slot: nat) {
    && (forall i | 0 <= i < |t| && t[i].key != 0 && i != slot :: Sound(t[i].stats))
    && (slot < |t| ==> t[slot].stats == FRESH || Sound(t[slot].stats))
  }

  lemma SoundMerge(a: Stats, b: Stats)
    requires (a == FRESH || Sound(a)) && Sound(b)
    ensures Sound(Merge(a, b))
  {
    hide Between, WallOk;
    if a == FRESH {
      FreshMerge(b);
    } else {
      var m := Merge(a, b);
      var ca, cb := a.count as real, b.count as real;
      assert m.count as real == ca + cb;
      BetweenSum(ca, a.tmin, a.total, a.tmax, cb, b.tmin, b.total, b.tmax, m.tmin, m.tmax);
    }
  }

  lemma FreshMerge(b: Stats)
    requires Sound(b)
    ensures Merge(FRESH, b) == b
  {
  }

  lemma BetweenSum(ca: real, la: real, ta: real, ha: real, cb: real, lb: real, tb: real, hb: real, lo: real, hi: real)
    requires ca >= 0.0 && cb >= 0.0 && lo <= la && lo <= lb && ha <= hi && hb <= hi
    requires Between(ca, la, ta, ha) && Between(cb, lb, tb, hb)
    ensures Between(ca + cb, lo, ta + tb, hi)
  {
    hide Total;
    TotalMonotone(ca, lo, la);
    TotalMonotone(cb, lo, lb);
    TotalMonotone(ca, ha, hi);
    TotalMonotone(cb, hb, hi);
    TotalAdds(ca, cb, lo);
    TotalAdds(ca, cb, hi);
  }

  lemma TotalMonotone(n: real, x: real, y: real)
    requires n >= 0.0 && x <= y
    ensures Total(n, x) <= Total(n, y)
  {
  }

  lemma TotalAdds(m: real, n: real, x: real)
    ensures Total(m + n, x) == Total(m, x) + Total(n, x)
  {
  }

  lemma SoundOnce(wall: real)
    requires WallOk(wall)
    ensures Sound(Once(wall))
  {
  }

  // ---- which calls are touched -----------------------------------------------------

  ghost predicate HasCall(t: seq<HashEnt>, c: nat) {
    exists i :: 0 <= i < |t| && t[i].key != 0 && KeyCall(t[i].key) == c
  }

  // The call has at least its share of the entries a table may have.
  ghost predicate Heavy(t: seq<HashEnt>, c: nat, ncalls: nat, limit: nat) {
    1 <= c <= ncalls && limit <= ncalls * Density(t, c)
  }

  lemma HeavyHas(t: seq<HashEnt>, c: nat, ncalls: nat, limit: nat)
    requires Heavy(t, c, ncalls, limit) && limit > 0
    ensures HasCall(t, c)
  {
    FactorPositive(ncalls, Density(t, c));
    DensityHas(t, c);
  }

  lemma FactorPositive(n: nat, x: nat)
    requires n * x > 0
    ensures x > 0
  {
  }

  lemma HeavyMore(t: seq<HashEnt>, u: seq<HashEnt>, c: nat, ncalls: nat, limit: nat)
    requires Heavy(t, c, ncalls, limit) && Density(t, c) <= Density(u, c)
    ensures Heavy(u, c, ncalls, limit)
  {
    hide Density;
    TimesMore(ncalls, Density(t, c), Density(u, c));
  }

  lemma TimesMore(n: nat, a: nat, b: nat)
    requires a <= b
    ensures n * a <= n * b
  {
  }

  lemma {:induction false} DensityUpdate(t: seq<HashEnt>, i: nat, e: HashEnt, c: nat)
    requires i < |t|
    ensures Density(t[i := e], c)
         == Density(t, c) - (if KeyCall(t[i].key) == c then 1 else 0) + (if KeyCall(e.key) == c then 1 else 0)
  {
    hide KeyCall;
    var n := |t| - 1;
    if i == n {
      assert t[i := e][..n] == t[..n];
    } else {
      assert t[i := e][..n] == t[..n][i := e];
      DensityUpdate(t[..n], i, e, c);
    }
  }

  // The densities of all calls up to n together.
  function Densities(t: seq<HashEnt>, n: nat): nat {
    if n == 0 then 0 else Densities(t, n - 1) + Density(t, n)
  }

  lemma {:induction false} DensitiesLast(t: seq<HashEnt>, n: nat)
    requires t != []
    ensures Densities(t, n)
         == Densities(t[..|t| - 1], n) + (if 1 <= KeyCall(t[|t| - 1].key) <= n then 1 else 0)
  {
    hide KeyCall;
    if n > 0 {
      DensitiesLast(t, n - 1);
    }
  }

  lemma {:induction false} NoDensities(t: seq<HashEnt>, n: nat)
    requires t == []
    ensures Densities(t, n) == 0
  {
    if n > 0 {
      NoDensities(t, n - 1);
    }
  }

  // Every entry is one of some call.
  lemma {:induction false} OccupiedDensities(t: seq<HashEnt>, ncalls: nat)
    requires forall i | 0 <= i < |t| && t[i].key != 0 :: KeyOk(t[i].key, ncalls)
    ensures |Occupied(t)| == Densities(t, ncalls)
  {
    hide KeyCall;
    if t == [] {
      NoDensities(t, ncalls);
      assert Occupied(t) == {};
    } else {
      var n := |t| - 1;
      OccupiedDensities(t[..n], ncalls);
      OccupiedPrefix(t, n);
      DensitiesLast(t, ncalls);
      NoCall();
      assert t[..n + 1] == t;
    }
  }

  lemma NoCall()
    ensures KeyCall(0) == 0
  {
  }

  lemma {:induction false} DensitiesAtMost(t: seq<HashEnt>, n: nat, most: nat)
    requires forall c | 1 <= c <= n :: Density(t, c) <= most
    ensures Densities(t, n) <= n * most
  {
    hide Density;
    if n > 0 {
      DensitiesAtMost(t, n - 1, most);
      OneTimesMore(n, most);
    }
  }

  lemma OneTimesMore(n: nat, most: nat)
    requires n > 0
    ensures n * most == (n - 1) * most + most
  {
  }

  // So the densest call of a table at its limit has its share.
  lemma DensestHeavy(t: seq<HashEnt>, call: nat, ncalls: nat, limit: nat)
    requires forall i | 0 <= i < |t| && t[i].key != 0 :: KeyOk(t[i].key, ncalls)
    requires Densest(t, call, ncalls) && |Occupied(t)| >= limit
    ensures Heavy(t, call, ncalls, limit)
  {
    hide Density, KeyCall;
    OccupiedDensities(t, ncalls);
    DensitiesAtMost(t, ncalls, Density(t, call));
  }

  // Table t has no more entries of any call than table t0, but for one that may have been put
  // into the slot, and only calls that had their share of t0 have lost precision between d0
  // and d.
  ghost predicate WithinBut(t: seq<HashEnt>, slot: nat, d: seq<nat>, t0: seq<HashEnt>, d0: seq<nat>, limit: nat) {
    && (forall c: nat | c >= 1 ::
          Density(t, c) <= Density(t0, c) + (if slot < |t| && KeyCall(t[slot].key) == c then 1 else 0))
    && |d| == |d0| > 0 && forall c: nat | c < |d| && d[c] != d0[c] :: Heavy(t0, c, |d| - 1, limit)
  }

  ghost predicate Within(t: seq<HashEnt>, d: seq<nat>, t0: seq<HashEnt>, d0: seq<nat>, limit: nat) {
    WithinBut(t, |t|, d, t0, d0, limit)
  }

  // Some call that had its share of t0 has lost its last bit.
  ghost predicate SpentBy(t0: seq<HashEnt>, d: seq<nat>, limit: nat) {
    exists c: nat :: c < |d| && d[c] == PRECISION_BITS && Heavy(t0, c, |d| - 1, limit)
  }

  lemma WithinSame(t: seq<HashEnt>, d: seq<nat>, limit: nat)
    requires |d| > 0
    ensures Within(t, d, t, d, limit)
  {
  }

  lemma WithinTrans(t: seq<HashEnt>, slot: nat, d: seq<nat>, t1: seq<HashEnt>, d1: seq<nat>, t0: seq<HashEnt>,
                    d0: seq<nat>, limit: nat)
    requires Within(t1, d1, t0, d0, limit) && WithinBut(t, slot, d, t1, d1, limit)
    ensures WithinBut(t, slot, d, t0, d0, limit)
  {
    hide Density, KeyCall, Heavy;
    forall c: nat | c < |d| && d[c] != d0[c]
      ensures Heavy(t0, c, |d| - 1, limit)
    {
      if d1[c] == d0[c] {
        UnderHeavy(t1, t0, c, |d| - 1, limit);
      }
    }
  }

  lemma UnderHeavy(t: seq<HashEnt>, t0: seq<HashEnt>, c: nat, ncalls: nat, limit: nat)
    requires Heavy(t, c, ncalls, limit) && forall c: nat | c >= 1 :: Density(t, c) <= Density(t0, c)
    ensures Heavy(t0, c, ncalls, limit)
  {
    HeavyMore(t, t0, c, ncalls, limit);
  }

  lemma SpentUnder(t: seq<HashEnt>, t0: seq<HashEnt>, d: seq<nat>, limit: nat)
    requires SpentBy(t, d, limit) && forall c: nat | c >= 1 :: Density(t, c) <= Density(t0, c)
    ensures SpentBy(t0, d, limit)
  {
    hide Density, Heavy;
    var c: nat :| c < |d| && d[c] == PRECISION_BITS && Heavy(t, c, |d| - 1, limit);
    UnderHeavy(t, t0, c, |d| - 1, limit);
  }

  // Entry n of the saved ones has been put into the slot.
  lemma WithinNext(t: seq<HashEnt>, slot: nat, d: seq<nat>, saved: seq<HashEnt>, n: nat, d0: seq<nat>, limit: nat,
                   e: HashEnt)
    requires n < |saved| && slot < |t| && WithinBut(t, slot, d, saved[..n], d0, limit)
    requires KeyCall(e.key) == KeyCall(t[slot].key) == KeyCall(saved[n].key)
    ensures Within(t[slot := e], d, saved[..n + 1], d0, limit)
  {
    hide KeyCall, Heavy;
    DensityPrefix(saved, n);
    var u, next := t[slot := e], saved[..n + 1];
    forall c: nat | c >= 1
      ensures Density(u, c) <= Density(next, c)
    {
      DensityUpdate(t, slot, e, c);
    }
    forall c: nat | c < |d| && d[c] != d0[c]
      ensures Heavy(saved[..n + 1], c, |d| - 1, limit)
    {
      HeavyMore(saved[..n], saved[..n + 1], c, |d| - 1, limit);
    }
  }

  lemma DensityPrefix(t: seq<HashEnt>, n: nat)
    requires n < |t|
    ensures forall c: nat :: Density(t[..n + 1], c) == Density(t[..n], c) + (if KeyCall(t[n].key) == c then 1 else 0)
  {
    hide KeyCall;
    assert t[..n + 1][..n] == t[..n];
  }

  lemma WithinSkip(t: seq<HashEnt>, d: seq<nat>, saved: seq<HashEnt>, n: nat, d0: seq<nat>, limit: nat)
    requires n < |saved| && Within(t, d, saved[..n], d0, limit)
    ensures Within(t, d, saved[..n + 1], d0, limit)
  {
    hide KeyCall, Heavy;
    DensityPrefix(saved, n);
    forall c: nat | c < |d| && d[c] != d0[c]
      ensures Heavy(saved[..n + 1], c, |d| - 1, limit)
    {
      HeavyMore(saved[..n], saved[..n + 1], c, |d| - 1, limit);
    }
  }

  lemma WithinHole(t: seq<HashEnt>, slot: nat, d: seq<nat>, t0: seq<HashEnt>, d0: seq<nat>, limit: nat, e: HashEnt)
    requires Within(t, d, t0, d0, limit) && slot < |t|
    ensures WithinBut(t[slot := e], slot, d, t0, d0, limit)
  {
    hide KeyCall, Heavy;
    forall c: nat | c >= 1
      ensures Density(t[slot := e], c) <= Density(t, c) + (if KeyCall(e.key) == c then 1 else 0)
    {
      DensityUpdate(t, slot, e, c);
    }
  }

  lemma StepWithin(t: seq<HashEnt>, d: seq<nat>, t0: seq<HashEnt>, d0: seq<nat>, call: nat, limit: nat)
    requires call < |d0| && Within(t, d, t0, d0[call := d0[call] + 1], limit) && Heavy(t0, call, |d0| - 1, limit)
    ensures Within(t, d, t0, d0, limit)
  {
    hide Density, KeyCall, Heavy;
  }

  lemma {:induction false} DensityHas(t: seq<HashEnt>, c: nat)
    requires Density(t, c) > 0 && c > 0
    ensures HasCall(t, c)
  {
    var n := |t| - 1;
    if KeyCall(t[n].key) == c {
      assert KeyCall(0) == 0;
    } else {
      DensityHas(t[..n], c);
      var i :| 0 <= i < n && t[..n][i].key != 0 && KeyCall(t[..n][i].key) == c;
      assert t[i].key != 0 && KeyCall(t[i].key) == c;
    }
  }

  // ---- dictionary ------------------------------------------------------------------

  // The first c slots on a key's probe path hold other keys.
  ghost predicate PathTo(t: seq<HashEnt>, p: nat, key: nat, c: nat)
    requires 3 <= p <= |t|
  {
    forall i: nat | i < c :: t[Probe(p, key, i)].key != 0 && t[Probe(p, key, i)].key != key
  }

  ghost predicate OnPath(t: seq<HashEnt>, p: nat, slot: nat)
    requires 3 <= p <= |t| && slot < |t|
  {
    exists c: nat :: Probe(p, t[slot].key, c) == slot && PathTo(t, p, t[slot].key, c)
  }

  ghost predicate Canonical(t: seq<HashEnt>, p: nat)
    requires 3 <= p <= |t|
  {
    forall s: nat | s < |t| && t[s].key != 0 :: OnPath(t, p, s)
  }

  // In a canonical table a key occupies at most one slot.
  lemma OneSlot(t: seq<HashEnt>, p: nat, s1: nat, s2: nat)
    requires 3 <= p <= |t| && Canonical(t, p)
    requires s1 < |t| && s2 < |t| && t[s1].key == t[s2].key != 0
    ensures s1 == s2
  {
    assert OnPath(t, p, s1) && OnPath(t, p, s2);
    var c1: nat :| Probe(p, t[s1].key, c1) == s1 && PathTo(t, p, t[s1].key, c1);
    var c2: nat :| Probe(p, t[s2].key, c2) == s2 && PathTo(t, p, t[s2].key, c2);
  }

  // A key whose probe path leads to an empty slot is not in a canonical table.
  lemma AbsentKey(t: seq<HashEnt>, p: nat, key: nat, c: nat, s: nat)
    requires 3 <= p <= |t| && Canonical(t, p) && key != 0
    requires PathTo(t, p, key, c) && t[Probe(p, key, c)].key == 0 && s < |t|
    ensures t[s].key != key
  {
  }

  // Inserting a key into the first empty slot of its path keeps the table canonical.
  lemma InsertCanonical(t: seq<HashEnt>, p: nat, key: nat, c: nat, stats: Stats)
    requires 3 <= p <= |t| && Canonical(t, p) && key != 0
    requires PathTo(t, p, key, c) && t[Probe(p, key, c)].key == 0
    ensures Canonical(t[Probe(p, key, c) := HashEnt(key, stats)], p)
  {
    var slot := Probe(p, key, c);
    var u := t[slot := HashEnt(key, stats)];
    forall s: nat | s < |u| && u[s].key != 0
      ensures OnPath(u, p, s)
    {
      if s == slot {
        assert PathTo(u, p, key, c);
      } else {
        assert OnPath(t, p, s);
        var i: nat :| Probe(p, t[s].key, i) == s && PathTo(t, p, t[s].key, i);
        AbsentKey(t, p, key, c, s);
        assert PathTo(u, p, u[s].key, i);
      }
    }
  }

  lemma UpdateCanonical(t: seq<HashEnt>, p: nat, slot: nat, stats: Stats)
    requires 3 <= p <= |t| && Canonical(t, p) && slot < |t|
    ensures Canonical(t[slot := HashEnt(t[slot].key, stats)], p)
  {
    var u := t[slot := HashEnt(t[slot].key, stats)];
    forall s: nat | s < |u| && u[s].key != 0
      ensures OnPath(u, p, s)
    {
      assert OnPath(t, p, s);
      var i: nat :| Probe(p, t[s].key, i) == s && PathTo(t, p, t[s].key, i);
      assert PathTo(u, p, u[s].key, i);
    }
  }

  // The table holds exactly the key-value pairs of a map.
  ghost predicate Represents(t: seq<HashEnt>, m: map<nat, Stats>) {
    && (forall s | 0 <= s < |t| && t[s].key != 0 :: t[s].key in m && m[t[s].key] == t[s].stats)
    && (forall k | k in m :: k != 0 && exists s :: 0 <= s < |t| && t[s].key == k)
    && |Occupied(t)| == |m|
  }

  function Lookup(m: map<nat, Stats>, key: nat): Stats {
    if key in m then m[key] else FRESH
  }

  // The dictionary a log of events builds at a fixed precision.
  function Dictionary(log: seq<Event>, drops: seq<nat>): map<nat, Stats>
    requires forall e | e in log :: e.call < |drops|
  {
    if log == [] then map[]
    else
      var e := log[|log| - 1];
      var m := Dictionary(log[..|log| - 1], drops);
      var key := EventKey(e, drops);
      m[key := Merge(Lookup(m, key), Once(e.wall))]
  }

  lemma InsertRepresents(t: seq<HashEnt>, p: nat, key: nat, c: nat, m: map<nat, Stats>, x: Stats)
    requires 3 <= p <= |t| && Canonical(t, p) && Represents(t, m) && key != 0
    requires PathTo(t, p, key, c) && t[Probe(p, key, c)].key == 0
    ensures key !in m
    ensures Represents(t[Probe(p, key, c) := HashEnt(key, x)], m[key := x])
  {
    hide Probe, PathTo, Canonical;
    var slot := Probe(p, key, c);
    var u := t[slot := HashEnt(key, x)];
    forall s: nat | s < |t|
      ensures t[s].key != key
    {
      AbsentKey(t, p, key, c, s);
    }
    assert key !in m;
    OccupiedInsert(t, slot, HashEnt(key, x));
    var m' := m[key := x];
    forall k | k in m'
      ensures k != 0 && exists s :: 0 <= s < |u| && u[s].key == k
    {
      if k == key {
        assert u[slot].key == k;
      } else {
        var s :| 0 <= s < |t| && t[s].key == k;
        assert u[s].key == k;
      }
    }
  }

  lemma UpdateRepresents(t: seq<HashEnt>, p: nat, slot: nat, m: map<nat, Stats>, x: Stats)
    requires 3 <= p <= |t| && Canonical(t, p) && Represents(t, m) && slot < |t| && t[slot].key != 0
    ensures Represents(t[slot := HashEnt(t[slot].key, x)], m[t[slot].key := x])
  {
    hide Probe, PathTo, Canonical;
    var key := t[slot].key;
    var u := t[slot := HashEnt(key, x)];
    OccupiedInsert(t, slot, HashEnt(key, x));
    forall s: nat | s < |u| && u[s].key != 0
      ensures u[s].key in m && m[key := x][u[s].key] == u[s].stats
    {
      if s != slot && t[s].key == key {
        OneSlot(t, p, s, slot);
      }
    }
    forall k | k in m
      ensures exists s :: 0 <= s < |u| && u[s].key == k
    {
      var s :| 0 <= s < |t| && t[s].key == k;
      assert u[s].key == k;
    }
  }

  // ---- the dictionary a cull builds --------------------------------------------------

  function NewKey(key: nat, d: seq<nat>): nat {
    if KeyCall(key) < |d| then Recoded(key, d) else key
  }

  // The saved entries merged under their new keys.
  function Regrouped(saved: seq<HashEnt>, d: seq<nat>): map<nat, Stats> {
    if saved == [] then map[]
    else
      var m, e := Regrouped(saved[..|saved| - 1], d), saved[|saved| - 1];
      if e.key == 0 then m else m[NewKey(e.key, d) := Merge(Lookup(m, NewKey(e.key, d)), e.stats)]
  }

  lemma RegroupedNext(saved: seq<HashEnt>, n: nat, d: seq<nat>)
    requires n < |saved|
    ensures var m, e := Regrouped(saved[..n], d), saved[n];
      Regrouped(saved[..n + 1], d)
        == if e.key == 0 then m else m[NewKey(e.key, d) := Merge(Lookup(m, NewKey(e.key, d)), e.stats)]
  {
    hide Merge, NewKey;
    assert saved[..n + 1][..n] == saved[..n];
  }

  // Putting the saved entries back never finds the table at its limit.
  ghost predicate Roomy(saved: seq<HashEnt>, d: seq<nat>, limit: nat) {
    forall n: nat | n < |saved| && saved[n].key != 0 :: |Regrouped(saved[..n], d)| < limit
  }

  lemma {:induction false} RegroupedGrows(saved: seq<HashEnt>, m: nat, n: nat, d: seq<nat>)
    requires m <= n <= |saved|
    ensures |Regrouped(saved[..m], d)| <= |Regrouped(saved[..n], d)|
  {
    hide Merge, NewKey, Regrouped;
    if m < n {
      RegroupedGrows(saved, m, n - 1, d);
      RegroupedNext(saved, n - 1, d);
      Larger(Regrouped(saved[..n - 1], d), NewKey(saved[n - 1].key, d),
             Merge(Lookup(Regrouped(saved[..n - 1], d), NewKey(saved[n - 1].key, d)), saved[n - 1].stats));
    }
  }

  lemma Larger(m: map<nat, Stats>, key: nat, x: Stats)
    ensures |m| <= |m[key := x]| <= |m| + 1
  {
    if key in m {
      assert m[key := x].Keys == m.Keys;
    } else {
      assert m[key := x].Keys == m.Keys + {key};
    }
  }

  lemma {:induction false} RegroupedFew(saved: seq<HashEnt>, n: nat, d: seq<nat>)
    requires n <= |saved|
    ensures |Regrouped(saved[..n], d)| <= |Occupied(saved[..n])|
  {
    hide Merge, NewKey, Occupied;
    if n > 0 {
      RegroupedFew(saved, n - 1, d);
      OccupiedPrefix(saved, n - 1);
      RegroupedNext(saved, n - 1, d);
      Larger(Regrouped(saved[..n - 1], d), NewKey(saved[n - 1].key, d),
             Merge(Lookup(Regrouped(saved[..n - 1], d), NewKey(saved[n - 1].key, d)), saved[n - 1].stats));
    }
  }

  // That is so when there are no more entries than the limit, and when there are fewer keys.
  lemma RoomyFew(saved: seq<HashEnt>, d: seq<nat>, limit: nat)
    ensures |Occupied(saved)| <= limit ==> Roomy(saved, d, limit)
    ensures |Regrouped(saved, d)| < limit ==> Roomy(saved, d, limit)
  {
    hide Regrouped, Occupied;
    assert saved[..|saved|] == saved;
    forall n: nat | n < |saved| && saved[n].key != 0
      ensures |Occupied(saved)| <= limit || |Regrouped(saved, d)| < limit ==> |Regrouped(saved[..n], d)| < limit
    {
      OccupiedPrefixLess(saved, n);
      RegroupedFew(saved, n, d);
      RegroupedGrows(saved, n, |saved|, d);
    }
  }

  // The step a cull takes.
  ghost predicate StepAt(t: seq<HashEnt>, call: nat, d: seq<nat>, d': seq<nat>) {
    |d| > 0 && Densest(t, call, |d| - 1) && d' == d[call := d[call] + 1]
  }

  // A cull that meets no other cull: one step, and the saved entries merged under their new
  // keys, each on its own probe path.
  ghost predicate CulledOnce(p: nat, t: seq<HashEnt>, d: seq<nat>, t': seq<HashEnt>, d': seq<nat>, limit: nat)
    requires 3 <= p <= |t'|
  {
    forall call, d1 | StepAt(t, call, d, d1) && Roomy(t, d1, limit) ::
      d' == d1 && Canonical(t', p) && Represents(t', Regrouped(t, d1))
  }

  // A cull of the table has a bit to take, and leaves fewer keys than the limit.
  ghost predicate Eases(t: seq<HashEnt>, d: seq<nat>, limit: nat) {
    forall call, d1 | StepAt(t, call, d, d1) :: d1[call] < PRECISION_BITS && |Regrouped(t, d1)| < limit
  }

  // ---- one probe -------------------------------------------------------------------

  // A search for a key in table t0 with precision d0 has reached slot hkey after c
  // collisions, base of them before the last cull, and left table t with precision d.
  ghost predicate Probed(p: nat, limit: nat, t0: seq<HashEnt>, d0: seq<nat>, t: seq<HashEnt>, d: seq<nat>,
                         key: nat, hkey: nat, c: nat, base: nat)
  {
    && 3 <= p && |t| == |t0| == p + 1
    && hkey == Probe(p, key, c) && base <= c <= base + p
    && (forall i: nat | base <= i < c :: t[Probe(p, key, i)].key != 0)
    && Coarser(d0, d) && BitsLeft(d) <= BitsLeft(d0)
    && SameTotals(t0, t, d)
    && |Occupied(t)| <= |Occupied(t0)| + (if t[hkey].key == key then 1 else 0)
    && (AllSound(t0) ==> if t[hkey].key == key then SoundBut(t, hkey) else AllSound(t))
    && (if t[hkey].key == key then WithinBut(t, hkey, d, t0, d0, limit) else Within(t, d, t0, d0, limit))
    && (|Occupied(t0)| < limit ==> d == d0)
    && (d == d0 ==> PathTo(t0, p, key, c) && t == Reached(t0, t[hkey].key, hkey, key))
    && (Eases(t0, d0, limit) && |Occupied(t0)| <= limit ==>
          d == d0
          || ((exists call :: StepAt(t0, call, d0, d)) && (t[hkey].key == key || |Occupied(t)| < limit)))
  }

  // The table after a search that met no cull and stopped where the given key is found.
  ghost function Reached(t0: seq<HashEnt>, found: nat, hkey: nat, key: nat): seq<HashEnt>
    requires hkey < |t0|
  {
    if t0[hkey].key == 0 && found == key then t0[hkey := HashEnt(key, FRESH)] else t0
  }

  lemma ProbedStart(p: nat, limit: nat, t: seq<HashEnt>, d: seq<nat>, key: nat)
    requires 3 <= p && |t| == p + 1 && key != 0 && |d| > 0
    ensures Probed(p, limit, t, d, t, d, key, key % p, 0, 0)
  {
    ProbeStart(p, key);
    WithinSame(t, d, limit);
    NoHole(t, key % p, d, limit);
    hide Probe, Sound, BitsLeft, Fold, WithinBut;
  }

  lemma NoHole(t: seq<HashEnt>, slot: nat, d: seq<nat>, limit: nat)
    requires |d| > 0
    ensures WithinBut(t, slot, d, t, d, limit)
  {
    hide Density, KeyCall;
  }

  lemma ProbedInsert(p: nat, limit: nat, t0: seq<HashEnt>, d0: seq<nat>, t: seq<HashEnt>, d: seq<nat>,
                     key: nat, hkey: nat, c: nat, base: nat)
    requires Probed(p, limit, t0, d0, t, d, key, hkey, c, base) && t[hkey].key == 0 && key != 0
    ensures Probed(p, limit, t0, d0, t[hkey := HashEnt(key, FRESH)], d, key, hkey, c, base)
  {
    var u := t[hkey := HashEnt(key, FRESH)];
    OccupiedInsert(t, hkey, HashEnt(key, FRESH));
    InsertFresh(t, hkey, key, d);
    WithinHole(t, hkey, d, t0, d0, limit, HashEnt(key, FRESH));
    CoarserSame(d);
    SameTotalsTrans(t0, t, u, d, d);
  }

  lemma CoarserSame(d: seq<nat>)
    ensures Coarser(d, d)
  {
  }

  // A collision below the limit moves to the next slot; the slots seen since the last
  // cull are distinct and occupied, so there are fewer of them than slots.
  lemma ProbedAdvance(p: nat, limit: nat, t0: seq<HashEnt>, d0: seq<nat>, t: seq<HashEnt>, d: seq<nat>,
                      key: nat, hkey: nat, c: nat, base: nat)
    requires IsPrime(p) && limit < p && key != 0
    requires Probed(p, limit, t0, d0, t, d, key, hkey, c, base)
    requires t[hkey].key != 0 && t[hkey].key != key && |Occupied(t)| < limit
    ensures c - base < |Occupied(t)|
    ensures Probe(p, key, c + 1) < p
    ensures Probed(p, limit, t0, d0, t, d, key, Probe(p, key, c + 1), c + 1, base)
    ensures t[Probe(p, key, c + 1)].key == key ==> d != d0 || t0[Probe(p, key, c + 1)].key == key
  {
    hide Probe, SameTotals, Sound, BitsLeft, Coarser, WithinBut, Eases, StepAt;
    var n := if c - base < p then c - base + 1 else p;
    SeenOccupied(t, p, key, base, n);
    NewHole(t, Probe(p, key, c + 1), d, t0, d0, limit);
  }

  // A collision at the limit culls; the probe then goes on from the collision count the
  // cull left behind.
  lemma ProbedCull(p: nat, limit: nat, t0: seq<HashEnt>, d0: seq<nat>, t: seq<HashEnt>, d: seq<nat>,
                   key: nat, hkey: nat, c: nat, base: nat, t': seq<HashEnt>, d': seq<nat>, c': nat)
    requires Probed(p, limit, t0, d0, t, d, key, hkey, c, base)
    requires t[hkey].key != key && |Occupied(t)| >= limit && key != 0
    requires |t'| == p + 1 && Coarser(d, d') && BitsLeft(d') < BitsLeft(d)
    requires SameTotals(t, t', d') && |Occupied(t')| <= |Occupied(t)|
    requires AllSound(t) ==> AllSound(t')
    requires Within(t', d', t, d, limit)
    requires (exists call, d1 :: StepAt(t, call, d, d1)) && CulledOnce(p, t, d, t', d', limit)
    ensures Probed(p, limit, t0, d0, t', d', key, Probe(p, key, c' + 1), c' + 1, c' + 1)
  {
    hide Probe, SameTotals, Sound, BitsLeft, WithinBut, StepAt, Eases, CulledOnce, Canonical, Occupied;
    SameTotalsTrans(t0, t, t', d, d');
    WithinTrans(t', |t'|, d', t, d, t0, d0, limit);
    NewHole(t', Probe(p, key, c' + 1), d', t0, d0, limit);
    if d == d0 && Eases(t0, d0, limit) {
      CulledEased(p, t, d, t', d', limit);
    }
  }

  // A cull that fails in the middle of a search.
  lemma ProbedSpent(p: nat, limit: nat, t0: seq<HashEnt>, d0: seq<nat>, t: seq<HashEnt>, d: seq<nat>,
                    key: nat, hkey: nat, c: nat, base: nat, d': seq<nat>)
    requires Probed(p, limit, t0, d0, t, d, key, hkey, c, base) && t[hkey].key != key
    requires |Occupied(t)| >= limit && SpentBy(t, d', limit)
    requires forall call, d1 | StepAt(t, call, d, d1) && d1[call] < PRECISION_BITS :: !Roomy(t, d1, limit)
    requires exists call, d1 :: StepAt(t, call, d, d1)
    ensures SpentBy(t0, d', limit) && |Occupied(t0)| >= limit
    ensures !(Eases(t0, d0, limit) && |Occupied(t0)| <= limit)
  {
    hide Probe, SameTotals, SoundBut, BitsLeft, Coarser, Density, KeyCall, SpentBy, StepAt, Roomy, Regrouped, Occupied;
    SpentUnder(t, t0, d', limit);
    if Eases(t0, d0, limit) && |Occupied(t0)| <= limit {
      assert d == d0 && t == t0;
      var call, d1 :| StepAt(t, call, d, d1);
      RoomyFew(t, d1, limit);
    }
  }

  lemma NewHole(t: seq<HashEnt>, slot: nat, d: seq<nat>, t0: seq<HashEnt>, d0: seq<nat>, limit: nat)
    requires Within(t, d, t0, d0, limit)
    ensures WithinBut(t, slot, d, t0, d0, limit)
  {
    hide Density, KeyCall, Heavy;
  }

  lemma CulledEased(p: nat, t: seq<HashEnt>, d: seq<nat>, t': seq<HashEnt>, d': seq<nat>, limit: nat)
    requires 3 <= p <= |t'| && Eases(t, d, limit) && CulledOnce(p, t, d, t', d', limit)
    requires exists call, d1 :: StepAt(t, call, d, d1)
    ensures (exists call :: StepAt(t, call, d, d')) && |Occupied(t')| < limit
  {
    hide StepAt, Regrouped, Canonical, Roomy, Occupied;
    var call, d1 :| StepAt(t, call, d, d1);
    RoomyFew(t, d1, limit);
  }

  // Searching inserts nothing before it ends.
  lemma ProbedStuck(p: nat, limit: nat, t0: seq<HashEnt>, d0: seq<nat>, t: seq<HashEnt>, d: seq<nat>,
                    key: nat, hkey: nat, c: nat, base: nat)
    requires Probed(p, limit, t0, d0, t, d, key, hkey, c, base) && hkey < |t| && t[hkey].key != key
    ensures |Occupied(t)| <= |Occupied(t0)|
  {
  }

  // What a finished search says of the slot it returns.
  lemma ProbedDone(p: nat, limit: nat, t0: seq<HashEnt>, d0: seq<nat>, t: seq<HashEnt>, d: seq<nat>,
                   key: nat, hkey: nat, c: nat, base: nat)
    requires Probed(p, limit, t0, d0, t, d, key, hkey, c, base) && hkey < |t| && t[hkey].key == key
    ensures |Occupied(t)| <= |Occupied(t0)| + 1
    ensures Coarser(d0, d) && BitsLeft(d) <= BitsLeft(d0) && SameTotals(t0, t, d)
    ensures AllSound(t0) ==> SoundBut(t, hkey)
    ensures WithinBut(t, hkey, d, t0, d0, limit)
    ensures |Occupied(t0)| < limit ==> d == d0
    ensures Eases(t0, d0, limit) && |Occupied(t0)| <= limit ==> d == d0 || exists call :: StepAt(t0, call, d0, d)
    ensures d == d0 ==> Found(p, t0, t, key, hkey, c)
  {
  }

  // No cull was entered: hkey is the first slot on the key's path that is empty or holds
  // the key, and the table has gained at most the key, with fresh counters.
  ghost predicate Found(p: nat, t0: seq<HashEnt>, t: seq<HashEnt>, key: nat, hkey: nat, c: nat) {
    && 3 <= p <= |t0| && hkey == Probe(p, key, c)
    && PathTo(t0, p, key, c)
    && ((t0[hkey].key == key && t == t0)
        || (t0[hkey].key == 0 && t == t0[hkey := HashEnt(key, FRESH)]))
  }

  // ---- one cull --------------------------------------------------------------------

  // The cull has put the first n saved entries back: table t with precision d holds their
  // totals, and d1 is the precision right after the cull's own step down.
  ghost predicate Restored(p: nat, saved: seq<HashEnt>, n: nat, d1: seq<nat>, limit: nat, t: seq<HashEnt>, d: seq<nat>)
  {
    && n <= |saved| && |t| == |saved| && 3 <= p <= |t|
    && Coarser(d1, d) && BitsLeft(d) <= BitsLeft(d1)
    && SameTotals(saved[..n], t, d)
    && |Occupied(t)| <= |Occupied(saved[..n])|
    && (AllSound(saved) ==> AllSound(t))
    && Within(t, d, saved[..n], d1, limit)
    && (Roomy(saved, d1, limit) ==> d == d1)
    && (d == d1 ==> Canonical(t, p) && Represents(t, Regrouped(saved[..n], d1)))
  }

  lemma RestoredStart(p: nat, saved: seq<HashEnt>, d1: seq<nat>, limit: nat, t: seq<HashEnt>)
    requires |t| == |saved| && 3 <= p <= |t| && |d1| > 0 && forall i | 0 <= i < |t| :: t[i] == EMPTY
    ensures Restored(p, saved, 0, d1, limit, t, d1)
  {
    forall sel: Selection
      ensures Fold(saved[..0], sel) == Fold(t, sel)
    {
      FoldCleared(t, sel);
    }
    assert Occupied(t) == {} == Occupied(saved[..0]);
    ClearedWithin(t, saved[..0], d1, limit);
  }

  lemma ClearedWithin(t: seq<HashEnt>, t0: seq<HashEnt>, d: seq<nat>, limit: nat)
    requires |d| > 0 && forall i | 0 <= i < |t| :: t[i] == EMPTY
    ensures Within(t, d, t0, d, limit)
  {
    forall c: nat | c >= 1
      ensures Density(t, c) == 0
    {
      ClearedDensity(t, c);
    }
  }

  lemma {:induction false} ClearedDensity(t: seq<HashEnt>, c: nat)
    requires c >= 1 && forall i | 0 <= i < |t| :: t[i] == EMPTY
    ensures Density(t, c) == 0
  {
    NoCall();
    if t != [] {
      ClearedDensity(t[..|t| - 1], c);
    }
  }

  lemma RestoredSkip(p: nat, saved: seq<HashEnt>, n: nat, d1: seq<nat>, limit: nat, t: seq<HashEnt>, d: seq<nat>)
    requires Restored(p, saved, n, d1, limit, t, d) && n < |saved| && saved[n].key == 0
    ensures Restored(p, saved, n + 1, d1, limit, t, d)
  {
    hide BitsLeft, AllSound, WithinBut, Roomy, Canonical, Represents, Occupied, Regrouped;
    OccupiedPrefix(saved, n);
    WithinSkip(t, d, saved, n, d1, limit);
    RegroupedNext(saved, n, d1);
    forall sel: Selection | sel.Resolved(d)
      ensures Fold(saved[..n + 1], sel) == Fold(t, sel)
    {
      FoldPrefix(saved, n, sel);
      FoldInBounds(saved[..n], sel);
    }
  }

  // Entry n was looked up in table t, giving table u at precision d', and merged into the
  // slot found.
  lemma RestoredMerge(p: nat, saved: seq<HashEnt>, n: nat, d1: seq<nat>, limit: nat, t: seq<HashEnt>, d: seq<nat>,
                      u: seq<HashEnt>, d': seq<nat>, slot: nat, c: nat)
    requires Restored(p, saved, n, d1, limit, t, d) && n < |saved| && saved[n].key != 0
    requires saved[n].key < WORD && 0 < KeyCall(saved[n].key) < |d|
    requires |u| == |t| && slot < |u| && u[slot].key == Recoded(saved[n].key, d)
    requires |Occupied(u)| <= |Occupied(t)| + 1
    requires Coarser(d, d') && BitsLeft(d') <= BitsLeft(d) && SameTotals(t, u, d')
    requires AllSound(t) ==> SoundBut(u, slot)
    requires |Occupied(t)| < limit ==> d' == d
    requires d' == d ==> Found(p, t, u, Recoded(saved[n].key, d), slot, c)
    requires WithinBut(u, slot, d', t, d, limit)
    ensures Restored(p, saved, n + 1, d1, limit,
                     u[slot := HashEnt(u[slot].key, Merge(u[slot].stats, saved[n].stats))], d')
  {
    hide BitsLeft, Sound, AllSound, SoundBut, Merge, SameTotals, Coarser, Within, WithinBut;
    hide Recoded, Occupied, KeyCall, Fold, Roomy, Canonical, Represents, Regrouped, Found;
    RecodedNonZero(saved[n].key, d);
    MergeTotals(saved, n, d, t, u, d', slot);
    MergeOccupancy(saved, n, t, u, slot);
    if AllSound(saved) {
      MergeSound(saved, n, u, slot);
    }
    CoarserTrans(d1, d, d');
    MergeWithin(saved, n, d1, t, d, u, d', slot, limit);
    MergeRoomy(p, saved, n, d1, limit, t);
    if d' == d1 {
      CoarserBack(d1, d, d');
      MergeRegroups(p, saved, n, d1, t, u, slot, c);
    }
  }

  // Putting entry n back failed.
  lemma RestoredSpent(p: nat, saved: seq<HashEnt>, n: nat, d1: seq<nat>, limit: nat, t: seq<HashEnt>, d: seq<nat>,
                      d': seq<nat>)
    requires Restored(p, saved, n, d1, limit, t, d) && n < |saved| && saved[n].key != 0
    requires SpentBy(t, d', limit) && |Occupied(t)| >= limit
    ensures SpentBy(saved, d', limit) && !Roomy(saved, d1, limit)
  {
    hide BitsLeft, AllSound, SameTotals, Coarser, SpentBy, Roomy, Canonical, Represents, Regrouped;
    hide Occupied, Density, KeyCall;
    MergeRoomy(p, saved, n, d1, limit, t);
    forall c: nat
      ensures Density(saved[..n], c) <= Density(saved, c)
    {
      DensityGrows(saved, n, c);
    }
    SpentUnder(t, saved, d', limit);
  }

  lemma {:induction false} DensityGrows(t: seq<HashEnt>, n: nat, c: nat)
    requires n <= |t|
    ensures Density(t[..n], c) <= Density(t, c)
  {
    if n < |t| {
      DensityGrows(t[..|t| - 1], n, c);
      assert t[..|t| - 1][..n] == t[..n];
    } else {
      assert t[..n] == t;
    }
  }

  lemma CoarserBack(d: seq<nat>, e: seq<nat>, f: seq<nat>)
    requires Coarser(d, e) && Coarser(e, f) && f == d
    ensures e == d
  {
  }

  lemma MergeRoomy(p: nat, saved: seq<HashEnt>, n: nat, d1: seq<nat>, limit: nat, t: seq<HashEnt>)
    requires n < |saved| && saved[n].key != 0
    ensures Roomy(saved, d1, limit) && Represents(t, Regrouped(saved[..n], d1)) ==> |Occupied(t)| < limit
  {
    hide Regrouped, Occupied;
  }

  lemma MergeRegroups(p: nat, saved: seq<HashEnt>, n: nat, d: seq<nat>, t: seq<HashEnt>, u: seq<HashEnt>, slot: nat,
                      c: nat)
    requires n < |saved| && saved[n].key != 0 && KeyCall(saved[n].key) < |d| && Recoded(saved[n].key, d) != 0
    requires 3 <= p <= |t| && Canonical(t, p) && Represents(t, Regrouped(saved[..n], d))
    requires Found(p, t, u, Recoded(saved[n].key, d), slot, c)
    ensures var v := u[slot := HashEnt(u[slot].key, Merge(u[slot].stats, saved[n].stats))];
      Canonical(v, p) && Represents(v, Regrouped(saved[..n + 1], d))
  {
    hide Regrouped, Canonical, Represents, Found, Recoded, Merge;
    RegroupedNext(saved, n, d);
    FoundRefines(p, t, u, slot, c, Regrouped(saved[..n], d), Recoded(saved[n].key, d), saved[n].stats);
  }

  lemma RecodedNonZero(key: nat, d: seq<nat>)
    requires key < WORD && 0 < KeyCall(key) < |d|
    ensures Recoded(key, d) != 0
  {
    FieldsInRange(key);
    Unpack(KeyRegion(key), KeyCall(key), KeyRank(key), RoundDown(KeyByte(key), d[KeyCall(key)]));
    assert KeyCall(0) == 0;
  }

  lemma MergeSound(saved: seq<HashEnt>, n: nat, u: seq<HashEnt>, slot: nat)
    requires n < |saved| && saved[n].key != 0 && AllSound(saved)
    requires slot < |u| && SoundBut(u, slot)
    ensures AllSound(u[slot := HashEnt(u[slot].key, Merge(u[slot].stats, saved[n].stats))])
  {
    hide Sound, Merge;
    SoundMerge(u[slot].stats, saved[n].stats);
  }

  lemma MergeWithin(saved: seq<HashEnt>, n: nat, d1: seq<nat>, t: seq<HashEnt>, d: seq<nat>,
                    u: seq<HashEnt>, d': seq<nat>, slot: nat, limit: nat)
    requires n < |saved| && saved[n].key != 0 && saved[n].key < WORD && KeyCall(saved[n].key) < |d|
    requires Within(t, d, saved[..n], d1, limit) && WithinBut(u, slot, d', t, d, limit)
    requires slot < |u| && u[slot].key == Recoded(saved[n].key, d)
    ensures Within(u[slot := HashEnt(u[slot].key, Merge(u[slot].stats, saved[n].stats))], d', saved[..n + 1], d1, limit)
  {
    hide Pack, RoundDown, Within, WithinBut, Merge;
    var k := saved[n].key;
    FieldsInRange(k);
    RoundDownIs(KeyByte(k), d[KeyCall(k)]);
    Unpack(KeyRegion(k), KeyCall(k), KeyRank(k), RoundDown(KeyByte(k), d[KeyCall(k)]));
    WithinTrans(u, slot, d', t, d, saved[..n], d1, limit);
    WithinNext(u, slot, d', saved, n, d1, limit, HashEnt(u[slot].key, Merge(u[slot].stats, saved[n].stats)));
  }

  lemma MergeTotals(saved: seq<HashEnt>, n: nat, d: seq<nat>, t: seq<HashEnt>, u: seq<HashEnt>, d': seq<nat>, slot: nat)
    requires n < |saved| && saved[n].key != 0 && saved[n].key < WORD && KeyCall(saved[n].key) < |d|
    requires SameTotals(saved[..n], t, d) && SameTotals(t, u, d') && Coarser(d, d')
    requires slot < |u| && u[slot].key != 0 && u[slot].key == Recoded(saved[n].key, d)
    ensures SameTotals(saved[..n + 1], u[slot := HashEnt(u[slot].key, Merge(u[slot].stats, saved[n].stats))], d')
  {
    SameTotalsTrans(saved[..n], t, u, d, d');
    Reinsert(saved, n, u, slot, d, d');
  }

  lemma MergeOccupancy(saved: seq<HashEnt>, n: nat, t: seq<HashEnt>, u: seq<HashEnt>, slot: nat)
    requires n < |saved| && saved[n].key != 0 && |Occupied(t)| <= |Occupied(saved[..n])|
    requires slot < |u| && u[slot].key != 0 && |Occupied(u)| <= |Occupied(t)| + 1
    ensures |Occupied(u[slot := HashEnt(u[slot].key, Merge(u[slot].stats, saved[n].stats))])|
         <= |Occupied(saved[..n + 1])|
  {
    OccupiedInsert(u, slot, HashEnt(u[slot].key, Merge(u[slot].stats, saved[n].stats)));
    OccupiedPrefix(saved, n);
  }

  lemma CoarserTrans(d: seq<nat>, e: seq<nat>, f: seq<nat>)
    requires Coarser(d, e) && Coarser(e, f)
    ensures Coarser(d, f)
  {
  }

  lemma RestoredDone(p: nat, saved: seq<HashEnt>, d1: seq<nat>, limit: nat, t: seq<HashEnt>, d: seq<nat>)
    requires Restored(p, saved, |saved|, d1, limit, t, d)
    ensures Coarser(d1, d) && BitsLeft(d) <= BitsLeft(d1) && SameTotals(saved, t, d)
    ensures |Occupied(t)| <= |Occupied(saved)|
    ensures AllSound(saved) ==> AllSound(t)
    ensures Within(t, d, saved, d1, limit)
    ensures Roomy(saved, d1, limit) ==> d == d1 && Canonical(t, p) && Represents(t, Regrouped(saved, d1))
  {
    hide *;
    assert saved[..|saved|] == saved;
    RestoredAll(p, saved, d1, limit, t, d);
  }

  lemma RestoredAll(p: nat, saved: seq<HashEnt>, d1: seq<nat>, limit: nat, t: seq<HashEnt>, d: seq<nat>)
    requires Restored(p, saved, |saved|, d1, limit, t, d)
    ensures var all := saved[..|saved|];
      && Coarser(d1, d) && BitsLeft(d) <= BitsLeft(d1) && SameTotals(all, t, d) && |t| == |saved| && 3 <= p <= |t|
      && |Occupied(t)| <= |Occupied(all)| && (AllSound(saved) ==> AllSound(t)) && Within(t, d, all, d1, limit)
      && (Roomy(saved, d1, limit) ==> d == d1 && Canonical(t, p) && Represents(t, Regrouped(all, d1)))
  {
    hide Coarser, BitsLeft, SameTotals, Occupied, AllSound, WithinBut, Roomy, Canonical, Represents, Regrouped;
  }

  // ---- one event -------------------------------------------------------------------

  // Merging counters into the slot found for a key, when no cull was entered, is a dictionary
  // update.
  lemma FoundRefines(p: nat, t0: seq<HashEnt>, t: seq<HashEnt>, hkey: nat, c: nat, m: map<nat, Stats>, key: nat,
                     x: Stats)
    requires 3 <= p <= |t0| && Canonical(t0, p) && Represents(t0, m)
    requires Found(p, t0, t, key, hkey, c) && key != 0
    ensures var u := t[hkey := HashEnt(t[hkey].key, Merge(t[hkey].stats, x))];
      Canonical(u, p) && Represents(u, m[key := Merge(Lookup(m, key), x)])
  {
    hide Merge;
    var y := Merge(t[hkey].stats, x);
    if t0[hkey].key == key {
      UpdateCanonical(t0, p, hkey, y);
      UpdateRepresents(t0, p, hkey, m, y);
    } else {
      InsertCanonical(t0, p, key, c, y);
      InsertRepresents(t0, p, key, c, m, y);
      assert t[hkey := HashEnt(key, y)] == t0[hkey := HashEnt(key, y)];
    }
  }

  lemma LogRefines(p: nat, t0: seq<HashEnt>, t: seq<HashEnt>, hkey: nat, c: nat,
                   log: seq<Event>, e: Event, drops: seq<nat>)
    requires (forall x | x in log :: x.call < |drops|) && e.call < |drops|
    requires 3 <= p <= |t0| && Canonical(t0, p) && Represents(t0, Dictionary(log, drops))
    requires Found(p, t0, t, EventKey(e, drops), hkey, c) && EventKey(e, drops) != 0
    ensures var u := t[hkey := HashEnt(t[hkey].key, Merge(t[hkey].stats, Once(e.wall)))];
      && Canonical(u, p)
      && Represents(u, Dictionary(log + [e], drops))
  {
    hide Canonical, Represents, Found, Merge;
    var key, m := EventKey(e, drops), Dictionary(log, drops);
    assert (log + [e])[..|log|] == log;
    assert Dictionary(log + [e], drops) == m[key := Merge(Lookup(m, key), Once(e.wall))];
    FoundRefines(p, t0, t, hkey, c, m, key, Once(e.wall));
  }

  lemma EventKeyNonZero(e: Event, drops: seq<nat>)
    requires InRange(0, e.call, e.rank, e.bytes) && 0 < e.call < |drops|
    ensures EventKey(e, drops) != 0
  {
    Unpack(RegionByte(e.region), e.call, e.rank, RoundDown(e.bytes, drops[e.call]));
    assert KeyCall(0) == 0;
  }
}
