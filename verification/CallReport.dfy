// The totals the report draws from the event table (src/ipm_mpi_report.c) and the call
// listing that stops at its first zero (src/ipm_report_internal.c).
module CallReport {
  import opened Finite
  import opened KeyCodec
  import opened EventStats
  import opened TableSpec
  import opened EventTable
  import opened RegionReport
  import opened Sorting
  import opened Sums

  // ---- what a fold of the log says ---------------------------------------------------

  // The walls of the selected events, in order.
  function Walls(log: seq<Event>, sel: Selection): seq<real> {
    if log == [] then []
    else
      var e := log[|log| - 1];
      Walls(log[..|log| - 1], sel) + (if sel.TakesEvent(e) then [e.wall] else [])
  }

  // m is the least wall, or the value t_min starts with when there is none.
  ghost predicate IsLeast(m: real, walls: seq<real>) {
    (if walls == [] then m == FRESH.tmin else m in walls) && forall w | w in walls :: m <= w
  }

  ghost predicate IsGreatest(m: real, walls: seq<real>) {
    (if walls == [] then m == FRESH.tmax else m in walls) && forall w | w in walls :: w <= m
  }

  // The counters are those of exactly these walls.
  ghost predicate Summarizes(f: Stats, walls: seq<real>) {
    f.count == |walls| && f.total == Sum(walls) && IsLeast(f.tmin, walls) && IsGreatest(f.tmax, walls)
  }

  lemma LeastStep(m: real, walls: seq<real>, w: real)
    requires IsLeast(m, walls) && w <= FRESH.tmin
    ensures IsLeast(if w < m then w else m, walls + [w])
  {
    assert (walls + [w])[|walls|] == w;
  }

  lemma GreatestStep(m: real, walls: seq<real>, w: real)
    requires IsGreatest(m, walls) && w >= FRESH.tmax
    ensures IsGreatest(if w > m then w else m, walls + [w])
  {
    assert (walls + [w])[|walls|] == w;
  }

  lemma OneMoreWall(f: Stats, walls: seq<real>, w: real)
    requires Summarizes(f, walls) && WallOk(w)
    ensures Summarizes(Merge(f, Once(w)), walls + [w])
  {
    hide Sum, IsLeast, IsGreatest;
    SumSnoc(walls, w);
    LeastStep(f.tmin, walls, w);
    GreatestStep(f.tmax, walls, w);
  }

  // For walls in range, folding the selected events gives their number, the sum of their
  // walls and, unless there are none, the least and the greatest wall.
  lemma {:induction false} FoldLogMeaning(log: seq<Event>, sel: Selection)
    requires forall e | e in log :: WallOk(e.wall)
    ensures Summarizes(FoldLog(log, sel), Walls(log, sel))
  {
    if log != [] {
      var n := |log| - 1;
      FoldLogMeaning(log[..n], sel);
      NoMoreWall(log[..n], sel);
      hide Summarizes, Merge, Selection.TakesEvent;
      if sel.TakesEvent(log[n]) {
        OneMoreWall(FoldLog(log[..n], sel), Walls(log[..n], sel), log[n].wall);
      } else {
        assert Walls(log[..n], sel) + [] == Walls(log[..n], sel);
      }
    }
  }

  lemma {:induction false} NoMoreWall(log: seq<Event>, sel: Selection)
    ensures Merge(FoldLog(log, sel), FRESH) == FoldLog(log, sel)
    ensures FoldLog(log, sel).tmin <= FRESH.tmin && FoldLog(log, sel).tmax >= FRESH.tmax
  {
    hide Selection.TakesEvent;
    if log != [] {
      NoMoreWall(log[..|log| - 1], sel);
    }
  }

  // After any run the table's counts add up to hash_nlog, and every total the table still
  // resolves is the number of events logged for it and their time.
  lemma TotalsOfRun(task: Task, sel: Selection)
    requires task.Conserved() && sel.Resolved(task.drops)
    requires forall e | e in task.log :: WallOk(e.wall)
    ensures Summarizes(Fold(task.hash[..], sel), Walls(task.log, sel))
    ensures sel.Everything? ==> Fold(task.hash[..], sel).count == task.hashNlog
  {
    hide Summarizes, Fold, FoldLog, WallOk;
    FoldLogMeaning(task.log, sel);
    AllWalls(task.log);
    assert Fold(task.hash[..], sel) == FoldLog(task.log, sel);
    CountsWalls(FoldLog(task.log, sel), Walls(task.log, sel));
  }

  lemma CountsWalls(f: Stats, walls: seq<real>)
    ensures Summarizes(f, walls) ==> f.count == |walls|
  {
  }

  lemma {:induction false} AllWalls(log: seq<Event>)
    ensures |Walls(log, Everything)| == |log|
  {
    if log != [] {
      AllWalls(log[..|log| - 1]);
    }
  }

  // ---- projections -------------------------------------------------------------------

  lemma TableCalls(task: Task)
    requires task.Valid()
    ensures CallsFit(task.hash[..], task.ncalls)
  {
    hide Occupied, MasksOk;
  }

  // The report's per-call totals over all regions.
  method WholeProjection(task: Task) returns (mpiTime: array<real>, mpiCount: array<nat>)
    requires task.Valid()
    ensures fresh(mpiTime) && fresh(mpiCount) && mpiTime.Length == mpiCount.Length == task.ncalls + 1
    ensures forall c | 0 <= c <= task.ncalls ::
      && mpiTime[c] == Fold(task.hash[..], OfCall(c)).total
      && mpiCount[c] == Fold(task.hash[..], OfCall(c)).count
  {
    hide TableOk, MasksOk, Occupied, Fold, CallsFit;
    TableCalls(task);
    mpiTime := new real[task.ncalls + 1](_ => 0.0);
    mpiCount := new nat[task.ncalls + 1](_ => 0);
    Whole(mpiTime, mpiCount, task.hash[..], task.ncalls);
  }

  // The report's per-call totals of one region.
  method RegionProjection(task: Task, jreg: nat) returns (mpiTime: array<real>, mpiCount: array<nat>)
    requires task.Valid()
    ensures fresh(mpiTime) && fresh(mpiCount) && mpiTime.Length == mpiCount.Length == task.ncalls + 1
    ensures forall c | 0 <= c <= task.ncalls ::
      && mpiTime[c] == Fold(task.hash[..], OfRegionCall(jreg, c)).total
      && mpiCount[c] == Fold(task.hash[..], OfRegionCall(jreg, c)).count
  {
    hide TableOk, MasksOk, Occupied, Fold, CallsFit;
    TableCalls(task);
    mpiTime := new real[task.ncalls + 1](_ => 0.0);
    mpiCount := new nat[task.ncalls + 1](_ => 0);
    Turn(mpiTime, mpiCount, task.hash[..], jreg, task.ncalls);
  }

  // The projections of the first n regions onto one call, merged.
  function MergedRegions(t: seq<HashEnt>, call: nat, n: nat): Stats {
    if n == 0 then FRESH else Merge(MergedRegions(t, call, n - 1), Fold(t, OfRegionCall(n - 1, call)))
  }

  lemma MergedStep(t: seq<HashEnt>, call: nat, n: nat)
    ensures n == 0 ==> MergedRegions(t, call, n) == FRESH
    ensures n > 0 ==>
      MergedRegions(t, call, n) == Merge(MergedRegions(t, call, n - 1), Fold(t, OfRegionCall(n - 1, call)))
    ensures t == [] ==> forall sel: Selection :: Fold(t, sel) == FRESH
    ensures Merge(FRESH, FRESH) == FRESH
  {
  }

  // The region projections add up to the whole-job projection.
  lemma {:induction false} RegionsMakeWhole(t: seq<HashEnt>, call: nat, n: nat)
    requires forall i | 0 <= i < |t| && t[i].key != 0 :: KeyRegion(t[i].key) < n
    ensures MergedRegions(t, call, n) == Fold(t, OfCall(call))
  {
    if t == [] {
      NothingMerged(t, call, n);
    } else {
      hide MergedRegions, Merge, KeyRegion;
      var m := |t| - 1;
      RegionsMakeWhole(t[..m], call, n);
      OneMoreEntry(t, call, n);
      FoldInBounds(t[..m], OfCall(call));
    }
  }

  lemma {:induction false} NothingMerged(t: seq<HashEnt>, call: nat, n: nat)
    requires t == []
    ensures MergedRegions(t, call, n) == FRESH
  {
    hide MergedRegions, Fold, Merge;
    MergedStep(t, call, n);
    if n > 0 {
      NothingMerged(t, call, n - 1);
    }
  }

  lemma MergeFour(a: Stats, x: Stats, b: Stats, y: Stats)
    requires Merge(b, FRESH) == b
    ensures Merge(Merge(a, x), Merge(b, y)) == Merge(Merge(a, b), Merge(x, y))
    ensures Merge(Merge(a, b), Merge(x, FRESH)) == Merge(Merge(a, b), x)
    ensures Merge(Merge(a, b), Merge(FRESH, y)) == Merge(Merge(a, b), y)
    ensures Merge(Merge(a, b), FRESH) == Merge(a, b)
  {
  }

  function ShareBelow(e: HashEnt, call: nat, n: nat): Stats {
    if e.key != 0 && KeyRegion(e.key) < n then Share(e, OfCall(call)) else FRESH
  }

  // The share the last entry has in the first n region projections.
  lemma {:induction false} OneMoreEntry(t: seq<HashEnt>, call: nat, n: nat)
    requires t != []
    ensures MergedRegions(t, call, n)
         == Merge(MergedRegions(t[..|t| - 1], call, n), ShareBelow(t[|t| - 1], call, n))
  {
    hide MergedRegions, Merge, Share, KeyRegion, Fold;
    var u, e := t[..|t| - 1], t[|t| - 1];
    MergedStep(t, call, n);
    MergedStep(u, call, n);
    if n > 0 {
      var sel := OfRegionCall(n - 1, call);
      OneMoreEntry(t, call, n - 1);
      FoldInBounds(u, sel);
      FoldLast(t, sel);
      RegionShare(e, call, n - 1);
      MergeFour(MergedRegions(u, call, n - 1), ShareBelow(e, call, n - 1), Fold(u, sel), Share(e, sel));
    }
  }

  lemma FoldLast(t: seq<HashEnt>, sel: Selection)
    requires t != []
    ensures Fold(t, sel) == Merge(Fold(t[..|t| - 1], sel), Share(t[|t| - 1], sel))
  {
  }

  lemma RegionShare(e: HashEnt, call: nat, r: nat)
    ensures Share(e, OfRegionCall(r, call))
         == if e.key != 0 && KeyRegion(e.key) == r then Share(e, OfCall(call)) else FRESH
  {
  }

  // ---- the listing -------------------------------------------------------------------

  // Every call with time is printed.
  ghost predicate Complete(v: seq<real>, printed: seq<nat>) {
    forall c | 0 <= c < |v| && v[c] != 0.0 :: c in printed
  }

  ghost predicate AllZero(v: seq<real>) {
    forall c | 0 <= c < |v| :: v[c] == 0.0
  }

  // A listing of calls with the time they add up to: calls in descending order of time and
  // none whose time is zero; every other call exactly when no zero stands above something
  // negative, and then the times add up to the whole.
  ghost predicate Listing(v: seq<real>, printed: seq<nat>, mtimeTot: real) {
    && (forall k | 0 <= k < |printed| :: printed[k] < |v| && v[printed[k]] != 0.0)
    && Distinct(printed) && mtimeTot == SumAt(v, printed)
    && (forall j, k | 0 <= j < k < |printed| :: v[printed[j]] >= v[printed[k]])
    && (Complete(v, printed) <==> NothingBelowZeros(v))
    && (NothingBelowZeros(v) ==> mtimeTot == Sum(v))
  }

  // The listing stops at the first call whose time is zero, and there is none when the time of
  // the whole is.
  method ListCalls(gTime: array<real>, total: real) returns (printed: seq<nat>, mtimeTot: real)
    ensures total == 0.0 ==> printed == [] && mtimeTot == 0.0
    ensures total != 0.0 ==> Listing(gTime[..], printed, mtimeTot)
    ensures Complete(gTime[..], printed) <==> (total != 0.0 && NothingBelowZeros(gTime[..])) || AllZero(gTime[..])
  {
    hide Listing, TailKept, Distinct, Descending, Complete, AllZero, NothingBelowZeros;
    printed, mtimeTot := [], 0.0;
    NothingPrinted(gTime[..]);
    if total != 0.0 {
      var n := gTime.Length;
      var idx := new nat[n];
      IndexDoubles(n, idx, gTime);
      ghost var s, v := idx[..], gTime[..];
      var icall := 0;
      while icall < n
        invariant icall <= n && idx[..] == s
        invariant printed == s[..icall] && mtimeTot == SumAt(v, printed)
        invariant forall k | 0 <= k < icall :: v[s[k]] != 0.0
      {
        var jcall := idx[icall];
        if gTime[jcall] == 0.0 {
          break;
        }
        mtimeTot := mtimeTot + gTime[jcall];
        printed := printed + [jcall];
        icall := icall + 1;
        NextSum(v, s, icall);
      }
      Listed(s, v, icall);
      ListingComplete(v, printed, mtimeTot);
    }
  }

  lemma NothingPrinted(v: seq<real>)
    ensures Complete(v, []) <==> AllZero(v)
  {
  }

  lemma ListingComplete(v: seq<real>, printed: seq<nat>, mtimeTot: real)
    requires Listing(v, printed, mtimeTot)
    ensures Complete(v, printed) <==> NothingBelowZeros(v) || AllZero(v)
  {
    hide SumAt, Sum, Complete;
  }

  lemma NextSum(v: seq<real>, s: seq<nat>, n: nat)
    requires 0 < n <= |s| && forall k | 0 <= k < |s| :: s[k] < |v|
    ensures SumAt(v, s[..n]) == SumAt(v, s[..n - 1]) + v[s[n - 1]]
  {
    assert s[..n][..n - 1] == s[..n - 1];
  }

  lemma Listed(s: seq<nat>, v: seq<real>, n: nat)
    requires Permutation(s) && |s| == |v| && n <= |s| && Descending(s, v, |s|)
    requires forall k | 0 <= k < n :: v[s[k]] != 0.0
    requires n < |s| ==> v[s[n]] == 0.0
    ensures Listing(v, s[..n], SumAt(v, s[..n]))
  {
    hide SumAt, Sum, NothingBelowZeros;
    Stopped(s, v, n);
  }

  // There is no zero, or nothing negative.
  ghost predicate NothingBelowZeros(v: seq<real>) {
    (forall c | 0 <= c < |v| :: v[c] != 0.0) || forall c | 0 <= c < |v| :: v[c] >= 0.0
  }

  // A listing that stopped at the first zero has everything but zeros exactly when no
  // zero stands above something negative.
  lemma Stopped(s: seq<nat>, v: seq<real>, n: nat)
    requires Permutation(s) && |s| == |v| && n <= |s| && Descending(s, v, |s|)
    requires forall k | 0 <= k < n :: v[s[k]] != 0.0
    requires n < |s| ==> v[s[n]] == 0.0
    ensures Complete(v, s[..n]) <==> NothingBelowZeros(v)
    ensures NothingBelowZeros(v) ==> SumAt(v, s[..n]) == Sum(v)
  {
    if NothingBelowZeros(v) {
      forall c | 0 <= c < |v| && v[c] != 0.0
        ensures c in s[..n]
      {
        PermutationCovers(s, c);
        var k :| 0 <= k < |s| && s[k] == c;
        assert k < n;
        assert s[..n][k] == c;
      }
      ZerosAddNothing(v, s, n);
      SumPermuted(v, s);
    } else {
      var z :| 0 <= z < |v| && v[z] == 0.0;
      var r :| 0 <= r < |v| && v[r] < 0.0;
      NegativeUnlisted(s, v, n, z, r);
    }
  }

  lemma NegativeUnlisted(s: seq<nat>, v: seq<real>, n: nat, z: nat, r: nat)
    requires Permutation(s) && |s| == |v| && n <= |s| && Descending(s, v, |s|)
    requires forall k | 0 <= k < n :: v[s[k]] != 0.0
    requires n < |s| ==> v[s[n]] == 0.0
    requires z < |v| && v[z] == 0.0 && r < |v| && v[r] < 0.0
    ensures r !in s[..n]
  {
    PermutationCovers(s, z);
    var k :| 0 <= k < |s| && s[k] == z;
    assert n <= k;
  }

  lemma {:induction false} ZerosAddNothing(v: seq<real>, s: seq<nat>, n: nat)
    requires n <= |s| && forall k | 0 <= k < |s| :: s[k] < |v|
    requires forall k | n <= k < |s| :: v[s[k]] == 0.0
    ensures SumAt(v, s) == SumAt(v, s[..n])
  {
    if n < |s| {
      var m := |s| - 1;
      ZerosAddNothing(v, s[..m], n);
      assert s[..m][..n] == s[..n];
    } else {
      assert s[..n] == s;
    }
  }

  // The regions in the order the report visits them are the known ones exactly when no
  // known region has negative time (or every slot is in use), given that the unused slots
  // hold zero.
  method OrderRegions(regionWtime: array<real>, nregion: nat) returns (preg: array<nat>)
    requires nregion <= regionWtime.Length
    requires forall r | nregion <= r < regionWtime.Length :: regionWtime[r] == 0.0
    ensures fresh(preg) && preg.Length == regionWtime.Length && Permutation(preg[..])
    ensures Descending(preg[..], regionWtime[..], preg.Length)
    ensures (forall k | 0 <= k < nregion :: preg[k] < nregion)
      <==> nregion == preg.Length || forall r | 0 <= r < nregion :: regionWtime[r] >= 0.0
  {
    preg := new nat[regionWtime.Length];
    IndexDoubles(regionWtime.Length, preg, regionWtime);
    ZeroTailOrder(preg[..], regionWtime[..], nregion);
  }
}
