// Job-wide totals of a region (src/ipm_mpi_report.c): rank 0 names its regions one after
// the other, and every rank adds what it has for the named one.
module RegionReport {
  import opened KeyCodec
  import opened EventStats
  import opened Sums

  // One rank: its table, and which of its own regions each of rank 0's is, -1 for none.
  datatype Rank = Rank(table: seq<HashEnt>, region: seq<int>)

  ghost predicate CallsFit(t: seq<HashEnt>, ncalls: nat) {
    forall i | 0 <= i < |t| && t[i].key != 0 :: KeyCall(t[i].key) <= ncalls
  }

  // Both arrays hold the totals per call of the entries a selection takes for that call.
  ghost predicate Projects(mpiTime: seq<real>, mpiCount: seq<nat>, t: seq<HashEnt>, sel: nat -> Selection) {
    && |mpiTime| == |mpiCount|
    && forall c: nat | c < |mpiTime| :: mpiTime[c] == Fold(t, sel(c)).total && mpiCount[c] == Fold(t, sel(c)).count
  }

  function WholeOf(): nat -> Selection {
    (c: nat) => OfCall(c)
  }

  function RegionOf(jreg: nat): nat -> Selection {
    (c: nat) => OfRegionCall(jreg, c)
  }

  // Which entries each call's totals come from once the first n regions have been handled: a
  // rank that does not know a region leaves the arrays as they are.
  function HeldOf(rank: Rank, n: nat): nat -> Selection
    requires n <= |rank.region|
  {
    if n == 0 then WholeOf()
    else if rank.region[n - 1] >= 0 then RegionOf(rank.region[n - 1])
    else HeldOf(rank, n - 1)
  }

  function Held(rank: Rank, n: nat, call: nat): Stats
    requires n <= |rank.region|
  {
    Fold(rank.table, HeldOf(rank, n)(call))
  }

  // That is the whole job as long as the rank has known none of the regions, and otherwise the
  // last one it has known.
  lemma {:induction false} HeldIs(rank: Rank, n: nat, call: nat)
    requires n <= |rank.region|
    ensures (forall j | 0 <= j < n :: rank.region[j] < 0) ==> Held(rank, n, call) == Fold(rank.table, OfCall(call))
    ensures forall k: nat | k < n && rank.region[k] >= 0 && (forall j | k < j < n :: rank.region[j] < 0) ::
      Held(rank, n, call) == Fold(rank.table, OfRegionCall(rank.region[k], call))
  {
    hide Fold, Held;
    HeldStep(rank, n, call);
    if n > 0 && rank.region[n - 1] < 0 {
      HeldIs(rank, n - 1, call);
    }
  }

  lemma HeldStep(rank: Rank, n: nat, call: nat)
    requires n <= |rank.region|
    ensures n == 0 ==> Held(rank, n, call) == Fold(rank.table, OfCall(call))
    ensures n > 0 ==>
      Held(rank, n, call)
        == if rank.region[n - 1] >= 0 then Fold(rank.table, OfRegionCall(rank.region[n - 1], call))
           else Held(rank, n - 1, call)
  {
    hide Fold;
  }

  // What the rank spent in the k-th region.
  function Spent(rank: Rank, k: nat, call: nat): Stats
    requires k < |rank.region|
  {
    if rank.region[k] >= 0 then Fold(rank.table, OfRegionCall(rank.region[k], call)) else FRESH
  }

  // Every rank reports k regions and more.
  ghost predicate Reporting(ranks: seq<Rank>, k: nat) {
    && (forall r | 0 <= r < |ranks| :: k < |ranks[r].region|)
    && forall r, i | 0 <= r < |ranks| && 0 <= i < |ranks[r].table| :: ranks[r].table[i].stats.total >= 0.0
  }

  function AllHeld(ranks: seq<Rank>, k: nat, call: nat): seq<real>
    requires forall r | 0 <= r < |ranks| :: k < |ranks[r].region|
  {
    seq(|ranks|, r requires 0 <= r < |ranks| => Held(ranks[r], k + 1, call).total)
  }

  function AllSpent(ranks: seq<Rank>, k: nat, call: nat): seq<real>
    requires forall r | 0 <= r < |ranks| :: k < |ranks[r].region|
  {
    seq(|ranks|, r requires 0 <= r < |ranks| => Spent(ranks[r], k, call).total)
  }

  // The counts are reduced as floating-point numbers too.
  function AllHeldCounts(ranks: seq<Rank>, k: nat, call: nat): seq<real>
    requires forall r | 0 <= r < |ranks| :: k < |ranks[r].region|
  {
    seq(|ranks|, r requires 0 <= r < |ranks| => Held(ranks[r], k + 1, call).count as real)
  }

  function AllSpentCounts(ranks: seq<Rank>, k: nat, call: nat): seq<real>
    requires forall r | 0 <= r < |ranks| :: k < |ranks[r].region|
  {
    seq(|ranks|, r requires 0 <= r < |ranks| => Spent(ranks[r], k, call).count as real)
  }

  method Clear(mpiTime: array<real>, mpiCount: array<nat>)
    requires mpiTime.Length == mpiCount.Length
    modifies mpiTime, mpiCount
    ensures forall c | 0 <= c < mpiTime.Length :: mpiTime[c] == 0.0 && mpiCount[c] == 0
  {
    for i := 0 to mpiTime.Length
      invariant forall c | 0 <= c < i :: mpiTime[c] == 0.0 && mpiCount[c] == 0
    {
      mpiTime[i] := 0.0;
      mpiCount[i] := 0;
    }
  }

  // One rank's totals over all regions.
  method Whole(mpiTime: array<real>, mpiCount: array<nat>, t: seq<HashEnt>, ncalls: nat)
    requires mpiTime.Length == mpiCount.Length == ncalls + 1 && CallsFit(t, ncalls)
    modifies mpiTime, mpiCount
    ensures Projects(mpiTime[..], mpiCount[..], t, WholeOf())
  {
    hide Fold, KeyRegion, KeyCall, KeyRank, KeyByte, WholeOf, Projects;
    Clear(mpiTime, mpiCount);
    NothingYet(mpiTime[..], mpiCount[..], t[..0], WholeOf());
    for i := 0 to |t|
      invariant Projects(mpiTime[..], mpiCount[..], t[..i], WholeOf())
    {
      ghost var was, had := mpiTime[..], mpiCount[..];
      if t[i].key != 0 {
        var icall := KeyCall(t[i].key);
        mpiTime[icall] := mpiTime[icall] + t[i].stats.total;
        mpiCount[icall] := mpiCount[icall] + t[i].stats.count;
      }
      WholeStep(was, had, mpiTime[..], mpiCount[..], t, i);
    }
    assert t[..|t|] == t;
  }

  // One rank's part in one region: a rank that does not know it changes nothing.
  method Turn(mpiTime: array<real>, mpiCount: array<nat>, t: seq<HashEnt>, jreg: int, ncalls: nat)
    requires mpiTime.Length == mpiCount.Length == ncalls + 1 && CallsFit(t, ncalls)
    modifies mpiTime, mpiCount
    ensures jreg < 0 ==> mpiTime[..] == old(mpiTime[..]) && mpiCount[..] == old(mpiCount[..])
    ensures jreg >= 0 ==> Projects(mpiTime[..], mpiCount[..], t, RegionOf(jreg))
  {
    hide Fold, KeyRegion, KeyCall, KeyRank, KeyByte, RegionOf, Projects;
    if jreg >= 0 {
      Clear(mpiTime, mpiCount);
      NothingYet(mpiTime[..], mpiCount[..], t[..0], RegionOf(jreg));
      for i := 0 to |t|
        invariant Projects(mpiTime[..], mpiCount[..], t[..i], RegionOf(jreg))
      {
        ghost var was, had := mpiTime[..], mpiCount[..];
        if t[i].key != 0 {
          if KeyRegion(t[i].key) == jreg {
            var icall := KeyCall(t[i].key);
            mpiTime[icall] := mpiTime[icall] + t[i].stats.total;
            mpiCount[icall] := mpiCount[icall] + t[i].stats.count;
          }
        }
        RegionStep(was, had, mpiTime[..], mpiCount[..], t, i, jreg);
      }
      assert t[..|t|] == t;
    }
  }

  lemma NothingYet(mpiTime: seq<real>, mpiCount: seq<nat>, t: seq<HashEnt>, sel: nat -> Selection)
    requires t == [] && |mpiTime| == |mpiCount|
    requires forall c | 0 <= c < |mpiTime| :: mpiTime[c] == 0.0 && mpiCount[c] == 0
    ensures Projects(mpiTime, mpiCount, t, sel)
  {
  }

  // Entry i counted for its call.
  ghost predicate Counted(was: seq<real>, had: seq<nat>, mpiTime: seq<real>, mpiCount: seq<nat>, e: HashEnt,
                          taken: bool) {
    && |was| == |had| == |mpiTime| == |mpiCount|
    && forall c | 0 <= c < |was| ::
         && mpiTime[c] == was[c] + (if taken && KeyCall(e.key) == c then e.stats.total else 0.0)
         && mpiCount[c] == had[c] + (if taken && KeyCall(e.key) == c then e.stats.count else 0)
  }

  lemma OneMore(was: seq<real>, had: seq<nat>, mpiTime: seq<real>, mpiCount: seq<nat>,
                t: seq<HashEnt>, i: nat, taken: bool, sel: nat -> Selection)
    requires i < |t| && Projects(was, had, t[..i], sel) && Counted(was, had, mpiTime, mpiCount, t[i], taken)
    requires forall c: nat :: t[i].key != 0 && sel(c).TakesKey(t[i].key) <==> taken && KeyCall(t[i].key) == c
    ensures Projects(mpiTime, mpiCount, t[..i + 1], sel)
  {
    hide Fold, KeyCall, Selection.TakesKey;
    forall c: nat | c < |mpiTime|
      ensures mpiTime[c] == Fold(t[..i + 1], sel(c)).total && mpiCount[c] == Fold(t[..i + 1], sel(c)).count
    {
      FoldPrefix(t, i, sel(c));
    }
  }

  lemma WholeStep(was: seq<real>, had: seq<nat>, mpiTime: seq<real>, mpiCount: seq<nat>, t: seq<HashEnt>, i: nat)
    requires i < |t| && Projects(was, had, t[..i], WholeOf())
    requires Counted(was, had, mpiTime, mpiCount, t[i], t[i].key != 0)
    ensures Projects(mpiTime, mpiCount, t[..i + 1], WholeOf())
  {
    hide Projects, Counted, KeyCall, KeyRegion, KeyRank, KeyByte;
    OneMore(was, had, mpiTime, mpiCount, t, i, t[i].key != 0, WholeOf());
  }

  lemma RegionStep(was: seq<real>, had: seq<nat>, mpiTime: seq<real>, mpiCount: seq<nat>, t: seq<HashEnt>, i: nat,
                   jreg: nat)
    requires i < |t| && Projects(was, had, t[..i], RegionOf(jreg))
    requires Counted(was, had, mpiTime, mpiCount, t[i], t[i].key != 0 && KeyRegion(t[i].key) == jreg)
    ensures Projects(mpiTime, mpiCount, t[..i + 1], RegionOf(jreg))
  {
    hide Projects, Counted, KeyCall, KeyRegion, KeyRank, KeyByte;
    OneMore(was, had, mpiTime, mpiCount, t, i, t[i].key != 0 && KeyRegion(t[i].key) == jreg, RegionOf(jreg));
  }

  // What one rank puts into the reductions for each region in turn.
  method Report(rank: Rank, ncalls: nat) returns (times: seq<seq<real>>, counts: seq<seq<nat>>)
    requires CallsFit(rank.table, ncalls)
    ensures |times| == |counts| == |rank.region|
    ensures forall k: nat | k < |times| ::
      |times[k]| == ncalls + 1 && Projects(times[k], counts[k], rank.table, HeldOf(rank, k + 1))
  {
    hide Fold, CallsFit, Projects, WholeOf, RegionOf;
    var mpiTime := new real[ncalls + 1](_ => 0.0);
    var mpiCount := new nat[ncalls + 1](_ => 0);
    Whole(mpiTime, mpiCount, rank.table, ncalls);
    times, counts := [], [];
    for k := 0 to |rank.region|
      invariant |times| == |counts| == k && Projects(mpiTime[..], mpiCount[..], rank.table, HeldOf(rank, k))
      invariant forall j: nat | j < k ::
        |times[j]| == ncalls + 1 && Projects(times[j], counts[j], rank.table, HeldOf(rank, j + 1))
    {
      Turn(mpiTime, mpiCount, rank.table, rank.region[k], ncalls);
      times, counts := times + [mpiTime[..]], counts + [mpiCount[..]];
      assert times[k] == mpiTime[..] && counts[k] == mpiCount[..];
    }
  }

  lemma {:induction false} FoldNotNegative(t: seq<HashEnt>, sel: Selection)
    requires forall i | 0 <= i < |t| :: t[i].stats.total >= 0.0
    ensures Fold(t, sel).total >= 0.0
  {
    if t != [] {
      FoldNotNegative(t[..|t| - 1], sel);
    }
  }

  lemma {:induction false} SumBelow(v: seq<real>, w: seq<real>)
    requires |v| == |w| && forall r | 0 <= r < |v| :: v[r] >= w[r]
    ensures Sum(v) >= Sum(w)
    ensures Sum(v) == Sum(w) <==> v == w
  {
    if v != [] {
      var n := |v| - 1;
      SumBelow(v[..n], w[..n]);
      if v != w && v[n] == w[n] {
        assert v[..n] != w[..n] by {
          assert v == v[..n] + [v[n]] && w == w[..n] + [w[n]];
        }
      }
    }
  }

  // The reduced time and count of a call in a region are never less than those spent in it, and
  // are those exactly when every rank that does not know the region has nothing left over from
  // what it reported before: from the last region it knew, or from the whole job.
  lemma ReducedIff(ranks: seq<Rank>, k: nat, call: nat)
    requires Reporting(ranks, k)
    ensures Sum(AllHeld(ranks, k, call)) >= Sum(AllSpent(ranks, k, call)) >= 0.0
    ensures Sum(AllHeld(ranks, k, call)) == Sum(AllSpent(ranks, k, call))
      <==> forall r | 0 <= r < |ranks| && ranks[r].region[k] < 0 :: Held(ranks[r], k + 1, call).total == 0.0
    ensures Sum(AllHeldCounts(ranks, k, call)) >= Sum(AllSpentCounts(ranks, k, call))
    ensures Sum(AllHeldCounts(ranks, k, call)) == Sum(AllSpentCounts(ranks, k, call))
      <==> forall r | 0 <= r < |ranks| && ranks[r].region[k] < 0 :: Held(ranks[r], k + 1, call).count == 0
  {
    hide Fold, Sum, HeldOf;
    var held, spent := AllHeld(ranks, k, call), AllSpent(ranks, k, call);
    var heldCounts, spentCounts := AllHeldCounts(ranks, k, call), AllSpentCounts(ranks, k, call);
    forall r | 0 <= r < |ranks|
      ensures held[r] >= spent[r] >= 0.0
      ensures held[r] == spent[r] <==> ranks[r].region[k] >= 0 || Held(ranks[r], k + 1, call).total == 0.0
      ensures heldCounts[r] >= spentCounts[r]
      ensures heldCounts[r] == spentCounts[r] <==> ranks[r].region[k] >= 0 || Held(ranks[r], k + 1, call).count == 0
    {
      FoldNotNegative(ranks[r].table, HeldOf(ranks[r], k + 1)(call));
      KnownHeld(ranks[r], k, call);
    }
    SumBelow(held, spent);
    SumBelow(heldCounts, spentCounts);
    SumNotNegative(spent);
  }

  // A rank that knows the region reports what it spent there.
  lemma KnownHeld(rank: Rank, k: nat, call: nat)
    requires k < |rank.region|
    ensures rank.region[k] >= 0 ==> Held(rank, k + 1, call) == Spent(rank, k, call)
  {
    hide Fold;
  }

  lemma {:induction false} SumNotNegative(v: seq<real>)
    requires forall r | 0 <= r < |v| :: v[r] >= 0.0
    ensures Sum(v) >= 0.0
    ensures Sum(v) == 0.0 <==> forall r | 0 <= r < |v| :: v[r] == 0.0
  {
    if v != [] {
      SumNotNegative(v[..|v| - 1]);
    }
  }

  // Two ranks and two regions of rank 0.  Rank 1 has never entered the second (its own second
  // region has another name, so that it takes part twice): its time in the first is reported
  // as time in the second too.
  lemma LeftoverCounts(here: nat, there: nat, wall: real, left: real)
    requires here != 0 && wall > 0.0 && KeyCall(here) == 1 && KeyRegion(here) == 1
    requires there != 0 && left > 0.0 && KeyCall(there) == 1 && KeyRegion(there) == 0
    ensures var ranks := [Rank([HashEnt(here, Once(wall))], [0, 1]), Rank([HashEnt(there, Once(left))], [0, -1])];
      Sum(AllHeld(ranks, 1, 1)) == wall + left && Sum(AllSpent(ranks, 1, 1)) == wall
  {
    hide KeyRegion, KeyCall, KeyRank, KeyByte;
    var ranks := [Rank([HashEnt(here, Once(wall))], [0, 1]), Rank([HashEnt(there, Once(left))], [0, -1])];
    OneEntry(here, wall, 1);
    OneEntry(there, left, 0);
    assert HeldOf(ranks[1], 2) == HeldOf(ranks[1], 1) == RegionOf(0) && HeldOf(ranks[0], 2) == RegionOf(1);
    assert AllHeld(ranks, 1, 1) == [wall, left];
    assert AllSpent(ranks, 1, 1) == [wall, 0.0];
    TwoTerms(wall, left);
    TwoTerms(wall, 0.0);
  }

  lemma OneEntry(key: nat, wall: real, r: nat)
    requires key != 0 && wall > 0.0 && KeyCall(key) == 1 && KeyRegion(key) == r
    ensures Fold([HashEnt(key, Once(wall))], OfRegionCall(r, 1)).total == wall
  {
    hide KeyRegion, KeyCall, KeyRank, KeyByte;
    var t := [HashEnt(key, Once(wall))];
    assert t[..0] == [];
  }

  lemma TwoTerms(a: real, b: real)
    ensures Sum([a, b]) == a + b
  {
    assert [a, b][..1] == [a] && [a][..0] == [];
    assert Sum([]) == 0.0 && Sum([a]) == a;
  }
}
