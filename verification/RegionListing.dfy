// What is printed about one region: the reduced totals of RegionReport, listed as CallReport
// lists them.  Nothing is listed when the reduced time of the region is zero, and to that time
// a rank that does not know the region adds nothing (src/ipm_mpi_report.c).
module RegionListing {
  import opened CallReport
  import opened EventStats
  import opened KeyCodec
  import opened RegionReport
  import opened Sums

  // region_mtime as the first ipm_sync leaves it, or the zero of a rank that does not know the
  // region.
  function MpiTime(rank: Rank, k: nat): real
    requires k < |rank.region|
  {
    if rank.region[k] >= 0 then Fold(rank.table, OfRegion(rank.region[k])).total else 0.0
  }

  function AllMpiTime(ranks: seq<Rank>, k: nat): seq<real>
    requires forall r | 0 <= r < |ranks| :: k < |ranks[r].region|
  {
    seq(|ranks|, r requires 0 <= r < |ranks| => MpiTime(ranks[r], k))
  }

  // The reduced times per call, and those really spent in the region.
  function Times(ranks: seq<Rank>, k: nat, ncalls: nat): seq<real>
    requires forall r | 0 <= r < |ranks| :: k < |ranks[r].region|
  {
    seq(ncalls + 1, c requires 0 <= c <= ncalls => Sum(AllHeld(ranks, k, c)))
  }

  function TimesSpent(ranks: seq<Rank>, k: nat, ncalls: nat): seq<real>
    requires forall r | 0 <= r < |ranks| :: k < |ranks[r].region|
  {
    seq(ncalls + 1, c requires 0 <= c <= ncalls => Sum(AllSpent(ranks, k, c)))
  }

  // The time of a region is that of its calls, on one rank and on all.
  function RegionRow(t: seq<HashEnt>, jreg: nat, ncalls: nat): seq<real> {
    seq(ncalls + 1, c requires 0 <= c <= ncalls => Fold(t, OfRegionCall(jreg, c)).total)
  }

  lemma {:induction false} RowAddsUp(t: seq<HashEnt>, jreg: nat, ncalls: nat)
    requires CallsFit(t, ncalls)
    ensures Sum(RegionRow(t, jreg, ncalls)) == Fold(t, OfRegion(jreg)).total
  {
    hide Sum, KeyCall, KeyRegion, KeyRank, KeyByte;
    if t == [] {
      AllZeros(RegionRow(t, jreg, ncalls));
    } else {
      var before, e := t[..|t| - 1], t[|t| - 1];
      RowAddsUp(before, jreg, ncalls);
      var row, was := RegionRow(t, jreg, ncalls), RegionRow(before, jreg, ncalls);
      if e.key != 0 && KeyRegion(e.key) == jreg {
        var c := KeyCall(e.key);
        assert row == was[c := was[c] + e.stats.total];
        SumUpdated(was, c, was[c] + e.stats.total);
      } else {
        assert row == was;
      }
    }
  }

  lemma {:induction false} SumUpdated(v: seq<real>, i: nat, x: real)
    requires i < |v|
    ensures Sum(v[i := x]) == Sum(v) - v[i] + x
  {
    var n := |v| - 1;
    if i < n {
      SumUpdated(v[..n], i, x);
      assert v[i := x][..n] == v[..n][i := x];
    } else {
      assert v[i := x][..n] == v[..n];
    }
  }

  lemma {:induction false} SumAdds(u: seq<real>, v: seq<real>, w: seq<real>)
    requires |u| == |v| == |w| && forall i | 0 <= i < |u| :: u[i] == v[i] + w[i]
    ensures Sum(u) == Sum(v) + Sum(w)
  {
    if u != [] {
      var n := |u| - 1;
      SumAdds(u[..n], v[..n], w[..n]);
    }
  }

  // Adding up over the ranks and then over the calls, or over the calls and then over the ranks.
  lemma {:induction false} TimesAddUp(ranks: seq<Rank>, k: nat, ncalls: nat)
    requires forall r | 0 <= r < |ranks| :: k < |ranks[r].region| && CallsFit(ranks[r].table, ncalls)
    ensures Sum(TimesSpent(ranks, k, ncalls)) == Sum(AllMpiTime(ranks, k))
  {
    hide CallsFit, Sum, AllSpent, AllMpiTime, MpiTime, Spent;
    if ranks == [] {
      NoRanks(ranks, k, ncalls);
    } else {
      var before, last := ranks[..|ranks| - 1], ranks[|ranks| - 1];
      TimesAddUp(before, k, ncalls);
      var row := seq(ncalls + 1, c requires 0 <= c <= ncalls => Spent(last, k, c).total);
      RankAddsUp(last, k, ncalls, row);
      forall c: nat | c <= ncalls
        ensures Sum(AllSpent(ranks, k, c)) == Sum(AllSpent(before, k, c)) + row[c]
      {
        OneRankMore(ranks, k, c);
      }
      SumAdds(TimesSpent(ranks, k, ncalls), TimesSpent(before, k, ncalls), row);
      OneRankMore(ranks, k, 0);
    }
  }

  lemma OneRankMore(ranks: seq<Rank>, k: nat, c: nat)
    requires ranks != [] && forall r | 0 <= r < |ranks| :: k < |ranks[r].region|
    ensures var before, last := ranks[..|ranks| - 1], ranks[|ranks| - 1];
      && Sum(AllSpent(ranks, k, c)) == Sum(AllSpent(before, k, c)) + Spent(last, k, c).total
      && Sum(AllMpiTime(ranks, k)) == Sum(AllMpiTime(before, k)) + MpiTime(last, k)
  {
    hide Spent, MpiTime, Sum;
    var before, last := ranks[..|ranks| - 1], ranks[|ranks| - 1];
    assert AllSpent(ranks, k, c) == AllSpent(before, k, c) + [Spent(last, k, c).total];
    SumSnoc(AllSpent(before, k, c), Spent(last, k, c).total);
    assert AllMpiTime(ranks, k) == AllMpiTime(before, k) + [MpiTime(last, k)];
    SumSnoc(AllMpiTime(before, k), MpiTime(last, k));
  }

  lemma NoRanks(ranks: seq<Rank>, k: nat, ncalls: nat)
    requires ranks == []
    ensures Sum(TimesSpent(ranks, k, ncalls)) == 0.0 == Sum(AllMpiTime(ranks, k))
  {
    AllZeros(TimesSpent(ranks, k, ncalls));
  }

  lemma RankAddsUp(rank: Rank, k: nat, ncalls: nat, row: seq<real>)
    requires k < |rank.region| && CallsFit(rank.table, ncalls)
    requires |row| == ncalls + 1 && forall c | 0 <= c <= ncalls :: row[c] == Spent(rank, k, c).total
    ensures Sum(row) == MpiTime(rank, k)
  {
    hide CallsFit, Fold, Sum;
    if rank.region[k] >= 0 {
      RowAddsUp(rank.table, rank.region[k], ncalls);
      assert row == RegionRow(rank.table, rank.region[k], ncalls);
    } else {
      AllZeros(row);
    }
  }

  // ---- the lines ----------------------------------------------------------------------------

  // A call has a line exactly when it has time in the region, and the line gives the time and
  // the number of calls there.
  ghost predicate LineRight(ranks: seq<Rank>, k: nat, c: nat, isPrinted: bool)
    requires forall r | 0 <= r < |ranks| :: k < |ranks[r].region|
  {
    && (isPrinted <==> Sum(AllSpent(ranks, k, c)) != 0.0)
    && (isPrinted ==> Sum(AllHeld(ranks, k, c)) == Sum(AllSpent(ranks, k, c))
                      && Sum(AllHeldCounts(ranks, k, c)) == Sum(AllSpentCounts(ranks, k, c)))
  }

  ghost predicate LinesRight(ranks: seq<Rank>, k: nat, ncalls: nat, printed: seq<nat>)
    requires forall r | 0 <= r < |ranks| :: k < |ranks[r].region|
  {
    forall c: nat | c <= ncalls :: LineRight(ranks, k, c, c in printed)
  }

  // No rank that does not know the region has time of the call left over from what it reported
  // before, nor calls left over where others have time.
  ghost predicate NoneLeft(ranks: seq<Rank>, k: nat, c: nat)
    requires forall r | 0 <= r < |ranks| :: k < |ranks[r].region|
  {
    forall r | 0 <= r < |ranks| && ranks[r].region[k] < 0 ::
      && Held(ranks[r], k + 1, c).total == 0.0
      && (Sum(AllSpent(ranks, k, c)) != 0.0 ==> Held(ranks[r], k + 1, c).count == 0)
  }

  ghost predicate NothingLeft(ranks: seq<Rank>, k: nat, ncalls: nat)
    requires forall r | 0 <= r < |ranks| :: k < |ranks[r].region|
  {
    forall c: nat | c <= ncalls :: NoneLeft(ranks, k, c)
  }

  lemma NothingSpent(ranks: seq<Rank>, k: nat, ncalls: nat)
    requires Reporting(ranks, k) && Sum(TimesSpent(ranks, k, ncalls)) == 0.0
    ensures LinesRight(ranks, k, ncalls, [])
  {
    hide Sum, AllHeld, AllSpent;
    var spent := TimesSpent(ranks, k, ncalls);
    forall c | 0 <= c <= ncalls
      ensures spent[c] == Sum(AllSpent(ranks, k, c)) >= 0.0
    {
      ReducedIff(ranks, k, c);
    }
    SumNotNegative(spent);
  }

  // With no negative times the listing is complete.
  lemma ListedCalls(ranks: seq<Rank>, k: nat, ncalls: nat, printed: seq<nat>, mtimeTot: real)
    requires Reporting(ranks, k) && Listing(Times(ranks, k, ncalls), printed, mtimeTot)
    ensures forall c | 0 <= c <= ncalls :: c in printed <==> Sum(AllHeld(ranks, k, c)) != 0.0
    ensures mtimeTot == Sum(Times(ranks, k, ncalls))
  {
    hide Sum, SumAt, AllHeld, AllSpent;
    var v := Times(ranks, k, ncalls);
    forall c | 0 <= c <= ncalls
      ensures v[c] == Sum(AllHeld(ranks, k, c)) >= 0.0
    {
      ReducedIff(ranks, k, c);
    }
    assert NothingBelowZeros(v);
    forall c | 0 <= c <= ncalls
      ensures c in printed <==> v[c] != 0.0
    {
      if c in printed {
        var i :| 0 <= i < |printed| && printed[i] == c;
      }
    }
  }

  lemma LineIff(ranks: seq<Rank>, k: nat, c: nat, isPrinted: bool)
    requires Reporting(ranks, k) && (isPrinted <==> Sum(AllHeld(ranks, k, c)) != 0.0)
    ensures LineRight(ranks, k, c, isPrinted) <==> NoneLeft(ranks, k, c)
    ensures LineRight(ranks, k, c, isPrinted) ==> Sum(AllHeld(ranks, k, c)) == Sum(AllSpent(ranks, k, c))
  {
    hide Sum, AllHeld, AllSpent, AllHeldCounts, AllSpentCounts, Held;
    ReducedIff(ranks, k, c);
  }

  lemma LinesIff(ranks: seq<Rank>, k: nat, ncalls: nat, printed: seq<nat>)
    requires Reporting(ranks, k)
    requires forall c | 0 <= c <= ncalls :: c in printed <==> Sum(AllHeld(ranks, k, c)) != 0.0
    ensures LinesRight(ranks, k, ncalls, printed) <==> NothingLeft(ranks, k, ncalls)
    ensures LinesRight(ranks, k, ncalls, printed) ==> Times(ranks, k, ncalls) == TimesSpent(ranks, k, ncalls)
  {
    hide Sum, AllHeld, AllSpent, LineRight, NoneLeft;
    forall c: nat | c <= ncalls
      ensures LineRight(ranks, k, c, c in printed) <==> NoneLeft(ranks, k, c)
      ensures LineRight(ranks, k, c, c in printed) ==> Sum(AllHeld(ranks, k, c)) == Sum(AllSpent(ranks, k, c))
    {
      LineIff(ranks, k, c, c in printed);
    }
  }

  // What the listing prints of a region is right exactly when no MPI time was spent in it, so
  // that nothing is printed, or no rank without the region has anything left over; and then the
  // times printed add up to the time of the region.
  lemma ListedIff(ranks: seq<Rank>, k: nat, ncalls: nat, total: real, printed: seq<nat>, mtimeTot: real)
    requires Reporting(ranks, k) && forall r | 0 <= r < |ranks| :: CallsFit(ranks[r].table, ncalls)
    requires total == Sum(AllMpiTime(ranks, k))
    requires total == 0.0 ==> printed == [] && mtimeTot == 0.0
    requires total != 0.0 ==> Listing(Times(ranks, k, ncalls), printed, mtimeTot)
    ensures LinesRight(ranks, k, ncalls, printed) <==> total == 0.0 || NothingLeft(ranks, k, ncalls)
    ensures LinesRight(ranks, k, ncalls, printed) ==> mtimeTot == total
  {
    hide Listing, LinesRight, NothingLeft, Sum, CallsFit, AllMpiTime;
    TimesAddUp(ranks, k, ncalls);
    if total == 0.0 {
      NothingSpent(ranks, k, ncalls);
    } else {
      ListedCalls(ranks, k, ncalls, printed, mtimeTot);
      LinesIff(ranks, k, ncalls, printed);
    }
  }

  // No listing is right for the two ranks of LeftoverCounts.
  lemma LeftoverListed(here: nat, there: nat, wall: real, left: real, ncalls: nat, printed: seq<nat>)
    requires here != 0 && wall > 0.0 && KeyCall(here) == 1 && KeyRegion(here) == 1
    requires there != 0 && left > 0.0 && KeyCall(there) == 1 && KeyRegion(there) == 0 && ncalls >= 1
    ensures var ranks := [Rank([HashEnt(here, Once(wall))], [0, 1]), Rank([HashEnt(there, Once(left))], [0, -1])];
      !LinesRight(ranks, 1, ncalls, printed)
  {
    hide Sum, AllHeld, AllSpent, AllHeldCounts, AllSpentCounts, KeyCall, KeyRegion;
    LeftoverCounts(here, there, wall, left);
    var ranks := [Rank([HashEnt(here, Once(wall))], [0, 1]), Rank([HashEnt(there, Once(left))], [0, -1])];
    assert !LineRight(ranks, 1, 1, 1 in printed);
  }

  // One region on all ranks, from the reduced totals to the lines.
  method ListRegion(ranks: seq<Rank>, k: nat, ncalls: nat) returns (printed: seq<nat>, mtimeTot: real)
    requires Reporting(ranks, k) && forall r | 0 <= r < |ranks| :: CallsFit(ranks[r].table, ncalls)
    ensures LinesRight(ranks, k, ncalls, printed)
      <==> Sum(AllMpiTime(ranks, k)) == 0.0 || NothingLeft(ranks, k, ncalls)
    ensures LinesRight(ranks, k, ncalls, printed) ==> mtimeTot == Sum(AllMpiTime(ranks, k))
  {
    hide Listing, LinesRight, NothingLeft, Sum, CallsFit, AllMpiTime;
    var times := Times(ranks, k, ncalls);
    var gTime := new real[ncalls + 1](c requires 0 <= c <= ncalls => times[c]);
    assert gTime[..] == times;
    printed, mtimeTot := ListCalls(gTime, Sum(AllMpiTime(ranks, k)));
    ListedIff(ranks, k, ncalls, Sum(AllMpiTime(ranks, k)), printed, mtimeTot);
  }
}
