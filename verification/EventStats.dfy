// The counters of a hash entry as a commutative fold, and the selections of entries that
// reports sum over.
module EventStats {
  import opened Bits
  import opened KeyCodec

  // count, t_tot, t_min and t_max of an ipm_hash_ent.
  datatype Stats = Stats(count: nat, total: real, tmin: real, tmax: real)

  // The counters of a freshly inserted key.
  const FRESH := Stats(0, 0.0, 1000000000000000.0, 0.0)

  function Merge(a: Stats, b: Stats): Stats {
    Stats(a.count + b.count, a.total + b.total,
          if b.tmin < a.tmin then b.tmin else a.tmin,
          if b.tmax > a.tmax then b.tmax else a.tmax)
  }

  // One event that took the given wall time.
  function Once(wall: real): Stats {
    Stats(1, wall, wall, wall)
  }

  datatype HashEnt = HashEnt(key: nat, stats: Stats)

  // IPM_MPI_KEY_CLEAR.
  const EMPTY := HashEnt(0, Stats(0, 0.0, 0.0, 0.0))

  // region is region_current, which is -1 while the rank is in no region.
  datatype Event = Event(region: int, call: nat, rank: int, bytes: nat, wall: real)

  // Which entries a total is taken over.  Bucket selects the sizes that agree with
  // index * 2^bits above bit number bits.
  datatype Selection =
    | Everything
    | OfRegion(region: nat)
    | OfCall(call: nat)
    | OfRegionCall(region: nat, call: nat)
    | OfPeer(region: nat, call: nat, rank: int)
    | OfBucket(region: nat, call: nat, rank: int, bits: nat, index: nat)
  {
    predicate Takes(r: nat, c: nat, k: int, bytes: nat) {
      match this
      case Everything => true
      case OfRegion(r') => r == r'
      case OfCall(c') => c == c'
      case OfRegionCall(r', c') => r == r' && c == c'
      case OfPeer(r', c', k') => r == r' && c == c' && k == k'
      case OfBucket(r', c', k', bits, index) => r == r' && c == c' && k == k' && Shift(bytes, bits) == index
    }

    predicate TakesKey(key: nat) {
      Takes(KeyRegion(key), KeyCall(key), KeyRank(key), KeyByte(key))
    }

    predicate TakesEvent(e: Event) {
      Takes(RegionByte(e.region), e.call, e.rank, e.bytes)
    }

    // The selection does not look below the precision that call sizes are kept at.
    predicate Resolved(drops: seq<nat>) {
      OfBucket? ==> call < |drops| && drops[call] <= bits
    }
  }

  // What a selection takes, with buckets in bytes.
  lemma TakesIff(sel: Selection, e: Event)
    ensures sel.TakesEvent(e) <==>
      match sel
      case Everything => true
      case OfRegion(r) => RegionByte(e.region) == r
      case OfCall(c) => e.call == c
      case OfRegionCall(r, c) => RegionByte(e.region) == r && e.call == c
      case OfPeer(r, c, k) => RegionByte(e.region) == r && e.call == c && e.rank == k
      case OfBucket(r, c, k, bits, index) =>
        && RegionByte(e.region) == r && e.call == c && e.rank == k
        && index * Pow2(bits) <= e.bytes < index * Pow2(bits) + Pow2(bits)
  {
    if sel.OfBucket? {
      ShiftIff(e.bytes, sel.bits, sel.index);
    }
  }

  function Share(e: HashEnt, sel: Selection): Stats {
    if e.key != 0 && sel.TakesKey(e.key) then e.stats else FRESH
  }

  // The selected counters of a table, merged.
  function Fold(t: seq<HashEnt>, sel: Selection): Stats {
    if t == [] then FRESH else Merge(Fold(t[..|t| - 1], sel), Share(t[|t| - 1], sel))
  }

  // The selected events of a log, merged.
  function FoldLog(log: seq<Event>, sel: Selection): Stats {
    if log == [] then FRESH
    else
      var e := log[|log| - 1];
      Merge(FoldLog(log[..|log| - 1], sel), if sel.TakesEvent(e) then Once(e.wall) else FRESH)
  }

  lemma {:induction false} FoldInBounds(t: seq<HashEnt>, sel: Selection)
    ensures Fold(t, sel).tmin <= FRESH.tmin && Fold(t, sel).tmax >= FRESH.tmax
    ensures Merge(Fold(t, sel), FRESH) == Fold(t, sel)
  {
    if t != [] {
      FoldInBounds(t[..|t| - 1], sel);
    }
  }

  lemma MergeLast(a: Stats, b: Stats, x: Stats)
    ensures Merge(a, Merge(b, x)) == Merge(Merge(a, b), x)
    ensures Merge(Merge(a, x), b) == Merge(Merge(a, b), x)
  {
  }

  // Merging x into one entry's share merges x into the fold.
  lemma {:induction false} FoldUpdate(t: seq<HashEnt>, i: nat, e: HashEnt, sel: Selection, x: Stats)
    requires i < |t|
    requires Share(e, sel) == Merge(Share(t[i], sel), x)
    ensures Fold(t[i := e], sel) == Merge(Fold(t, sel), x)
  {
    var n := |t| - 1;
    var u := t[i := e];
    if i == n {
      assert u[..n] == t[..n];
      MergeLast(Fold(t[..n], sel), Share(t[n], sel), x);
    } else {
      assert u[..n] == t[..n][i := e];
      FoldUpdate(t[..n], i, e, sel, x);
      MergeLast(Fold(t[..n], sel), Share(t[n], sel), x);
    }
  }

  // A table of empty slots folds to nothing.
  lemma {:induction false} FoldCleared(t: seq<HashEnt>, sel: Selection)
    requires forall i | 0 <= i < |t| :: t[i].key == 0
    ensures Fold(t, sel) == FRESH
  {
    if t != [] {
      FoldCleared(t[..|t| - 1], sel);
    }
  }

  lemma FoldPrefix(t: seq<HashEnt>, i: nat, sel: Selection)
    requires i < |t|
    ensures Fold(t[..i + 1], sel) == Merge(Fold(t[..i], sel), Share(t[i], sel))
  {
    assert t[..i + 1][..i] == t[..i];
  }

  // A selection counts something exactly when it takes an entry that does.
  lemma {:induction false} FoldCounts(t: seq<HashEnt>, sel: Selection)
    ensures Fold(t, sel).count > 0
      <==> exists i :: 0 <= i < |t| && t[i].key != 0 && sel.TakesKey(t[i].key) && t[i].stats.count > 0
  {
    hide Selection.TakesKey;
    if t != [] {
      var n := |t| - 1;
      FoldCounts(t[..n], sel);
      if i :| 0 <= i < |t[..n]| && t[..n][i].key != 0 && sel.TakesKey(t[..n][i].key) && t[..n][i].stats.count > 0 {
        assert t[i].key != 0 && sel.TakesKey(t[i].key) && t[i].stats.count > 0;
      }
      if i :| 0 <= i < |t| && t[i].key != 0 && sel.TakesKey(t[i].key) && t[i].stats.count > 0 {
        assert i < n ==> t[..n][i] == t[i];
      }
    }
  }

  lemma {:induction false} FoldLogCounts(log: seq<Event>, sel: Selection)
    ensures FoldLog(log, sel).count > 0 <==> exists e :: e in log && sel.TakesEvent(e)
  {
    hide Selection.TakesEvent;
    if log != [] {
      var n := |log| - 1;
      FoldLogCounts(log[..n], sel);
      assert log == log[..n] + [log[n]];
    }
  }

  // Two tables that agree on every selection resolved at the given precision.
  ghost predicate SameTotals(t: seq<HashEnt>, u: seq<HashEnt>, drops: seq<nat>) {
    forall sel: Selection :: sel.Resolved(drops) ==> Fold(t, sel) == Fold(u, sel)
  }

  // A table that holds exactly a log of events, as far as it can still be resolved.
  ghost predicate Accounts(t: seq<HashEnt>, log: seq<Event>, drops: seq<nat>) {
    forall sel: Selection :: sel.Resolved(drops) ==> Fold(t, sel) == FoldLog(log, sel)
  }

  ghost predicate Coarser(drops: seq<nat>, drops': seq<nat>) {
    |drops| == |drops'| && forall c | 0 <= c < |drops| :: drops[c] <= drops'[c]
  }

  lemma ResolvedFiner(sel: Selection, drops: seq<nat>, drops': seq<nat>)
    requires Coarser(drops, drops') && sel.Resolved(drops')
    ensures sel.Resolved(drops)
  {
  }

  lemma SameTotalsTrans(t: seq<HashEnt>, u: seq<HashEnt>, v: seq<HashEnt>, drops: seq<nat>, drops': seq<nat>)
    requires SameTotals(t, u, drops) && SameTotals(u, v, drops') && Coarser(drops, drops')
    ensures SameTotals(t, v, drops')
  {
    forall sel: Selection | sel.Resolved(drops')
      ensures Fold(t, sel) == Fold(v, sel)
    {
      ResolvedFiner(sel, drops, drops');
    }
  }

  // Inserting a key with fresh counters into an empty slot changes no total.
  lemma InsertFresh(t: seq<HashEnt>, i: nat, key: nat, drops: seq<nat>)
    requires i < |t| && t[i].key == 0
    ensures SameTotals(t, t[i := HashEnt(key, FRESH)], drops)
  {
    forall sel: Selection
      ensures Fold(t, sel) == Fold(t[i := HashEnt(key, FRESH)], sel)
    {
      FoldUpdate(t, i, HashEnt(key, FRESH), sel, FRESH);
      FoldInBounds(t, sel);
    }
  }

  // Absorbing counters x into the entry of a key adds x to the totals that take the key.
  lemma Absorb(t: seq<HashEnt>, i: nat, x: Stats, sel: Selection)
    requires i < |t| && t[i].key != 0
    ensures var u := t[i := HashEnt(t[i].key, Merge(t[i].stats, x))];
      Fold(u, sel) == if sel.TakesKey(t[i].key) then Merge(Fold(t, sel), x) else Fold(t, sel)
  {
    var e := HashEnt(t[i].key, Merge(t[i].stats, x));
    if sel.TakesKey(t[i].key) {
      FoldUpdate(t, i, e, sel, x);
    } else {
      FoldUpdate(t, i, e, sel, FRESH);
      FoldInBounds(t, sel);
    }
  }

  // A key keeps its place in every selection that is still resolved when its size is
  // rounded down to the current precision.
  lemma RoundedKeyTaken(sel: Selection, drops: seq<nat>, region: nat, call: nat, rank: int, bytes: nat)
    requires InRange(region, call, rank, bytes) && call < |drops| && sel.Resolved(drops)
    ensures sel.TakesKey(Pack(region, call, rank, RoundDown(bytes, drops[call])))
      <==> sel.Takes(region, call, rank, bytes)
  {
    Unpack(region, call, rank, RoundDown(bytes, drops[call]));
    if sel.OfBucket? && sel.call == call {
      RoundTwice(bytes, drops[call], sel.bits);
    }
  }

  // Re-inserting a saved entry under its rounded key carries its share over.
  lemma Reinsert(saved: seq<HashEnt>, n: nat, t: seq<HashEnt>, slot: nat, drops: seq<nat>, drops': seq<nat>)
    requires n < |saved| && saved[n].key != 0 && saved[n].key < WORD && KeyCall(saved[n].key) < |drops|
    requires Coarser(drops, drops')
    requires slot < |t| && SameTotals(saved[..n], t, drops')
    requires t[slot].key != 0
    requires t[slot].key == Recoded(saved[n].key, drops)
    ensures SameTotals(saved[..n + 1], t[slot := HashEnt(t[slot].key, Merge(t[slot].stats, saved[n].stats))], drops')
  {
    var k := saved[n].key;
    forall sel: Selection | sel.Resolved(drops')
      ensures Fold(saved[..n + 1], sel)
           == Fold(t[slot := HashEnt(t[slot].key, Merge(t[slot].stats, saved[n].stats))], sel)
    {
      ResolvedFiner(sel, drops, drops');
      FieldsInRange(k);
      RoundedKeyTaken(sel, drops, KeyRegion(k), KeyCall(k), KeyRank(k), KeyByte(k));
      Absorb(t, slot, saved[n].stats, sel);
      FoldPrefix(saved, n, sel);
      FoldInBounds(saved[..n], sel);
    }
  }

  // A stored key as the cull rebuilds it at the given precision.
  function Recoded(key: nat, drops: seq<nat>): nat
    requires KeyCall(key) < |drops|
  {
    Pack(KeyRegion(key), KeyCall(key), KeyRank(key), RoundDown(KeyByte(key), drops[KeyCall(key)]))
  }

  // The key an event is logged under at the given precision.
  function EventKey(e: Event, drops: seq<nat>): nat
    requires e.call < |drops|
  {
    Pack(RegionByte(e.region), e.call, e.rank, RoundDown(e.bytes, drops[e.call]))
  }

  // Logging one event accounts for it.
  lemma LogAccounts(t: seq<HashEnt>, slot: nat, log: seq<Event>, e: Event, drops: seq<nat>, drops': seq<nat>)
    requires Accounts(t, log, drops') && Coarser(drops, drops')
    requires InRange(0, e.call, e.rank, e.bytes) && 0 < e.call < |drops|
    requires slot < |t| && t[slot].key == EventKey(e, drops) && t[slot].key != 0
    ensures Accounts(t[slot := HashEnt(t[slot].key, Merge(t[slot].stats, Once(e.wall)))], log + [e], drops')
  {
    forall sel: Selection | sel.Resolved(drops')
      ensures Fold(t[slot := HashEnt(t[slot].key, Merge(t[slot].stats, Once(e.wall)))], sel) == FoldLog(log + [e], sel)
    {
      ResolvedFiner(sel, drops, drops');
      RoundedKeyTaken(sel, drops, RegionByte(e.region), e.call, e.rank, e.bytes);
      Absorb(t, slot, Once(e.wall), sel);
      FoldInBounds(t, sel);
      assert (log + [e])[..|log|] == log;
    }
  }
}
