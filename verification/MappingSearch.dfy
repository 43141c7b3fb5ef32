// The search for a cheaper placement of ranks in src/bwr.c.
module MappingSearch {
  import opened Finite
  import opened Sums

  // How many bytes each rank sends to each other.
  ghost predicate Square(data: seq<seq<real>>) {
    forall i | 0 <= i < |data| :: |data[i]| == |data|
  }

  function Traffic(x: real): real {
    if x > 0.0 then x else 0.0
  }

  // Places i and j are in different residue classes, and traffic between them costs.
  predicate Apart(b: int, i: nat, j: nat)
    requires b != 0
  {
    i % b != j % b
  }

  function Product(q: int, b: int): int {
    q * b
  }

  ghost predicate MultipleOf(b: int, x: int) {
    exists q: int :: Product(q, b) == x
  }

  // That is, when their distance is no multiple of b.
  lemma ApartIff(b: int, i: nat, j: nat)
    requires b != 0
    ensures Apart(b, i, j) <==> !MultipleOf(b, i - j)
  {
    var m, n := i / b, j / b;
    if i % b == j % b {
      Distance(b, m, n);
      assert Product(m - n, b) == i - j;
    } else if MultipleOf(b, i - j) {
      var q :| Product(q, b) == i - j;
      SameRemainder(b, q, m, n, i % b, j % b);
    }
  }

  lemma Distance(b: int, m: int, n: int)
    ensures (m - n) * b == b * m - b * n
  {
  }

  lemma SameRemainder(b: int, q: int, m: int, n: int, r: int, s: int)
    requires b != 0 && q * b == b * m + r - (b * n + s) && 0 <= r && 0 <= s
    requires (b > 0 ==> r < b && s < b) && (b < 0 ==> r < -b && s < -b)
    ensures r == s
  {
    var k := q - m + n;
    assert r - s == k * b by {
      Distribute(b, q, m, n);
    }
    SmallMultiple(b, k, r - s);
  }

  lemma Distribute(b: int, q: int, m: int, n: int)
    ensures (q - m + n) * b == q * b - b * m + b * n
  {
  }

  lemma SmallMultiple(b: int, k: int, x: int)
    requires b != 0 && x == k * b && (b > 0 ==> -b < x < b) && (b < 0 ==> b < x < -b)
    ensures x == 0
  {
    if k >= 1 {
      AtLeastOnce(b, k - 1);
      OneMore(b, k);
    } else if k <= -1 {
      AtLeastOnce(b, -k - 1);
      OneLess(b, k);
    }
  }

  lemma OneMore(b: int, k: int)
    ensures k * b == b + (k - 1) * b
  {
  }

  lemma OneLess(b: int, k: int)
    ensures k * b == -(b + (-k - 1) * b)
  {
  }

  lemma AtLeastOnce(b: int, k: nat)
    ensures b > 0 ==> b + k * b >= b
    ensures b < 0 ==> b + k * b <= b
  {
  }

  function RowCost(data: seq<seq<real>>, b: int, perm: seq<nat>, i: nat, n: nat): real
    requires b != 0 && i < |perm| && n <= |perm| && Indexes(data, perm)
  {
    if n == 0 then 0.0
    else RowCost(data, b, perm, i, n - 1) + (if Apart(b, i, n - 1) then Traffic(data[perm[i]][perm[n - 1]]) else 0.0)
  }

  function RowNear(data: seq<seq<real>>, b: int, perm: seq<nat>, i: nat, n: nat): real
    requires b != 0 && i < |perm| && n <= |perm| && Indexes(data, perm)
  {
    if n == 0 then 0.0
    else RowNear(data, b, perm, i, n - 1) + (if Apart(b, i, n - 1) then 0.0 else Traffic(data[perm[i]][perm[n - 1]]))
  }

  predicate Indexes(data: seq<seq<real>>, perm: seq<nat>) {
    forall i, j | 0 <= i < |perm| && 0 <= j < |perm| :: perm[i] < |data| && perm[j] < |data[perm[i]]|
  }

  function CostUpTo(data: seq<seq<real>>, b: int, perm: seq<nat>, m: nat): real
    requires b != 0 && m <= |perm| && Indexes(data, perm)
  {
    if m == 0 then 0.0 else CostUpTo(data, b, perm, m - 1) + RowCost(data, b, perm, m - 1, |perm|)
  }

  function NearUpTo(data: seq<seq<real>>, b: int, perm: seq<nat>, m: nat): real
    requires b != 0 && m <= |perm| && Indexes(data, perm)
  {
    if m == 0 then 0.0 else NearUpTo(data, b, perm, m - 1) + RowNear(data, b, perm, m - 1, |perm|)
  }

  // The traffic between places that are apart, and between places that are not.
  function Cost(data: seq<seq<real>>, b: int, perm: seq<nat>): real
    requires b != 0 && Indexes(data, perm)
  {
    CostUpTo(data, b, perm, |perm|)
  }

  function Near(data: seq<seq<real>>, b: int, perm: seq<nat>): real
    requires b != 0 && Indexes(data, perm)
  {
    NearUpTo(data, b, perm, |perm|)
  }

  // ---- what the cost is -----------------------------------------------------------------------------

  // What the ranks at places i and j cost.
  ghost function Charge(data: seq<seq<real>>, b: int, perm: seq<nat>, i: nat, j: nat): real
    requires Indexes(data, perm) && i < |perm| && j < |perm|
  {
    var bytes := data[perm[i]][perm[j]];
    if bytes > 0.0 && !MultipleOf(b, i - j) then bytes else 0.0
  }

  ghost function RowCharges(data: seq<seq<real>>, b: int, perm: seq<nat>, i: nat, n: nat): seq<real>
    requires Indexes(data, perm) && i < |perm| && n <= |perm|
  {
    seq(n, j requires 0 <= j < n => Charge(data, b, perm, i, j))
  }

  ghost function Charges(data: seq<seq<real>>, b: int, perm: seq<nat>, m: nat): seq<real>
    requires Indexes(data, perm) && m <= |perm|
  {
    seq(m, i requires 0 <= i < m => Sum(RowCharges(data, b, perm, i, |perm|)))
  }

  lemma {:induction false} RowIs(data: seq<seq<real>>, b: int, perm: seq<nat>, i: nat, n: nat)
    requires b != 0 && Indexes(data, perm) && i < |perm| && n <= |perm|
    ensures RowCost(data, b, perm, i, n) == Sum(RowCharges(data, b, perm, i, n))
  {
    hide Apart, MultipleOf;
    if n > 0 {
      RowIs(data, b, perm, i, n - 1);
      ApartIff(b, i, n - 1);
      assert RowCharges(data, b, perm, i, n)[..n - 1] == RowCharges(data, b, perm, i, n - 1);
    }
  }

  lemma {:induction false} CostsAre(data: seq<seq<real>>, b: int, perm: seq<nat>, m: nat)
    requires b != 0 && Indexes(data, perm) && m <= |perm|
    ensures CostUpTo(data, b, perm, m) == Sum(Charges(data, b, perm, m))
  {
    hide RowCost, RowCharges;
    if m > 0 {
      CostsAre(data, b, perm, m - 1);
      RowIs(data, b, perm, m - 1, |perm|);
      assert Charges(data, b, perm, m)[..m - 1] == Charges(data, b, perm, m - 1);
    }
  }

  // The cost is the positive traffic between the ranks at places whose distance is no multiple
  // of b: none when b is 1, and all between different places when b is large enough.
  lemma CostIs(data: seq<seq<real>>, b: int, perm: seq<nat>)
    requires b != 0 && Indexes(data, perm)
    ensures Cost(data, b, perm) == Sum(Charges(data, b, perm, |perm|))
    ensures b == 1 ==> Cost(data, b, perm) == 0.0
    ensures (b >= |perm| || -b >= |perm|) ==> forall i: nat, j: nat | i < |perm| && j < |perm| ::
      Charge(data, b, perm, i, j)
        == if i != j && data[perm[i]][perm[j]] > 0.0 then data[perm[i]][perm[j]] else 0.0
  {
    hide Charges, CostUpTo, Charge;
    CostsAre(data, b, perm, |perm|);
    if b == 1 {
      NothingCharged(data, b, perm);
    }
    if b >= |perm| || -b >= |perm| {
      forall i: nat, j: nat | i < |perm| && j < |perm|
        ensures Charge(data, b, perm, i, j)
             == if i != j && data[perm[i]][perm[j]] > 0.0 then data[perm[i]][perm[j]] else 0.0
      {
        ChargedApart(data, b, perm, i, j);
      }
    }
  }

  lemma ChargedApart(data: seq<seq<real>>, b: int, perm: seq<nat>, i: nat, j: nat)
    requires b != 0 && Indexes(data, perm) && i < |perm| && j < |perm| && (b >= |perm| || -b >= |perm|)
    ensures Charge(data, b, perm, i, j)
         == if i != j && data[perm[i]][perm[j]] > 0.0 then data[perm[i]][perm[j]] else 0.0
  {
    if i == j {
      assert Product(0, b) == i - j;
    } else if MultipleOf(b, i - j) {
      var q :| Product(q, b) == i - j;
      SmallMultiple(b, q, i - j);
    }
  }

  lemma NothingCharged(data: seq<seq<real>>, b: int, perm: seq<nat>)
    requires b == 1 && Indexes(data, perm)
    ensures Sum(Charges(data, b, perm, |perm|)) == 0.0
  {
    hide Charge, MultipleOf, Sum;
    forall i: nat | i < |perm|
      ensures Sum(RowCharges(data, b, perm, i, |perm|)) == 0.0
    {
      forall j: nat | j < |perm|
        ensures Charge(data, b, perm, i, j) == 0.0
      {
        NotCharged(data, b, perm, i, j);
      }
      AllZeros(RowCharges(data, b, perm, i, |perm|));
    }
    AllZeros(Charges(data, b, perm, |perm|));
  }

  lemma NotCharged(data: seq<seq<real>>, b: int, perm: seq<nat>, i: nat, j: nat)
    requires b == 1 && Indexes(data, perm) && i < |perm| && j < |perm|
    ensures Charge(data, b, perm, i, j) == 0.0
  {
    assert Product(i - j, b) == i - j;
  }

  // ---- what moving ranks about cannot change ------------------------------------------------------

  function Row(data: seq<seq<real>>, r: nat): seq<real>
    requires r < |data|
  {
    seq(|data[r]|, j requires 0 <= j < |data[r]| => Traffic(data[r][j]))
  }

  function RowTotals(data: seq<seq<real>>): seq<real> {
    seq(|data|, r requires 0 <= r < |data| => Sum(Row(data, r)))
  }

  function Total(data: seq<seq<real>>): real {
    Sum(RowTotals(data))
  }

  lemma Fits(data: seq<seq<real>>, perm: seq<nat>)
    requires Square(data) && |perm| == |data| && Permutation(perm)
    ensures Indexes(data, perm)
  {
  }

  lemma {:induction false} RowSplit(data: seq<seq<real>>, b: int, perm: seq<nat>, i: nat, n: nat)
    requires b != 0 && Square(data) && |perm| == |data| && Permutation(perm) && Indexes(data, perm) && i < |perm|
    requires n <= |perm|
    ensures RowCost(data, b, perm, i, n) + RowNear(data, b, perm, i, n) == SumAt(Row(data, perm[i]), perm[..n])
  {
    hide Traffic, Apart;
    if n > 0 {
      RowSplit(data, b, perm, i, n - 1);
      assert perm[..n][..n - 1] == perm[..n - 1];
    }
  }

  lemma {:induction false} SplitUpTo(data: seq<seq<real>>, b: int, perm: seq<nat>, m: nat)
    requires b != 0 && Square(data) && |perm| == |data| && Permutation(perm) && Indexes(data, perm) && m <= |perm|
    ensures CostUpTo(data, b, perm, m) + NearUpTo(data, b, perm, m) == SumAt(RowTotals(data), perm[..m])
  {
    hide RowCost, RowNear, Sum, Row;
    if m > 0 {
      SplitUpTo(data, b, perm, m - 1);
      assert perm[..m][..m - 1] == perm[..m - 1];
      WholeRow(data, b, perm, m - 1);
    }
  }

  lemma WholeRow(data: seq<seq<real>>, b: int, perm: seq<nat>, i: nat)
    requires b != 0 && Square(data) && |perm| == |data| && Permutation(perm) && Indexes(data, perm) && i < |perm|
    ensures RowCost(data, b, perm, i, |perm|) + RowNear(data, b, perm, i, |perm|) == Sum(Row(data, perm[i]))
  {
    hide RowCost, RowNear, Sum;
    RowSplit(data, b, perm, i, |perm|);
    assert perm[..|perm|] == perm;
    SumPermuted(Row(data, perm[i]), perm);
  }

  // However the ranks are placed, the traffic that costs and the traffic that does not add
  // up to the same.
  lemma CostPlusNear(data: seq<seq<real>>, b: int, perm: seq<nat>)
    requires b != 0 && Square(data) && |perm| == |data| && Permutation(perm)
    ensures Indexes(data, perm) && Cost(data, b, perm) + Near(data, b, perm) == Total(data)
  {
    hide CostUpTo, NearUpTo, Sum;
    Fits(data, perm);
    SplitUpTo(data, b, perm, |perm|);
    assert perm[..|perm|] == perm;
    SumPermuted(RowTotals(data), perm);
  }

  lemma {:induction false} NearNotNegative(data: seq<seq<real>>, b: int, perm: seq<nat>, m: nat)
    requires b != 0 && Indexes(data, perm) && m <= |perm|
    ensures NearUpTo(data, b, perm, m) >= 0.0 && CostUpTo(data, b, perm, m) >= 0.0
  {
    hide RowCost, RowNear;
    if m > 0 {
      NearNotNegative(data, b, perm, m - 1);
      RowNotNegative(data, b, perm, m - 1, |perm|);
    }
  }

  lemma {:induction false} RowNotNegative(data: seq<seq<real>>, b: int, perm: seq<nat>, i: nat, n: nat)
    requires b != 0 && Indexes(data, perm) && i < |perm| && n <= |perm|
    ensures RowNear(data, b, perm, i, n) >= 0.0 && RowCost(data, b, perm, i, n) >= 0.0
  {
    if n > 0 {
      RowNotNegative(data, b, perm, i, n - 1);
    }
  }

  // ---- the search -----------------------------------------------------------------------------------

  // One turn: swap two places, and keep the swap if it costs less.
  function Try(data: seq<seq<real>>, b: int, perm: seq<nat>, ii: nat, jj: nat): seq<nat>
    requires b != 0 && Indexes(data, perm) && ii < |perm| && jj < |perm|
  {
    var swapped := Swapped(perm, ii, jj);
    if Indexes(data, swapped) && Cost(data, b, swapped) < Cost(data, b, perm) then swapped else perm
  }

  // A whole search.
  function Search(data: seq<seq<real>>, b: int, perm: seq<nat>, picks: seq<(nat, nat)>): seq<nat>
    requires b != 0 && Indexes(data, perm) && forall k | 0 <= k < |picks| :: picks[k].0 < |perm| && picks[k].1 < |perm|
    ensures Indexes(data, Search(data, b, perm, picks)) && |Search(data, b, perm, picks)| == |perm|
  {
    if picks == [] then perm
    else
      var k := |picks| - 1;
      Try(data, b, Search(data, b, perm, picks[..k]), picks[k].0, picks[k].1)
  }

  // Every search ends with a permutation that costs no more than any it has been at before.
  lemma {:induction false} SearchImproves(data: seq<seq<real>>, b: int, perm: seq<nat>, picks: seq<(nat, nat)>, k: nat)
    requires b != 0 && Square(data) && |perm| == |data| && Permutation(perm) && Indexes(data, perm)
    requires k <= |picks| && forall i | 0 <= i < |picks| :: picks[i].0 < |perm| && picks[i].1 < |perm|
    ensures var end := Search(data, b, perm, picks);
      && Permutation(end)
      && Cost(data, b, end) <= Cost(data, b, Search(data, b, perm, picks[..k]))
      && 0.0 <= Cost(data, b, end) <= Total(data)
  {
    hide Cost, Near, Total, Swapped, Try, Square, Permutation;
    if k == |picks| {
      assert picks[..k] == picks;
    }
    if picks == [] {
      CostRange(data, b, perm);
    } else {
      var n := |picks| - 1;
      SearchImproves(data, b, perm, picks[..n], if k > n then n else k);
      if k <= n {
        assert picks[..n][..k] == picks[..k];
      }
      TryImproves(data, b, Search(data, b, perm, picks[..n]), picks[n].0, picks[n].1);
      CostRange(data, b, Search(data, b, perm, picks));
    }
  }

  lemma TryImproves(data: seq<seq<real>>, b: int, perm: seq<nat>, ii: nat, jj: nat)
    requires b != 0 && Square(data) && |perm| == |data| && Permutation(perm) && Indexes(data, perm)
    requires ii < |perm| && jj < |perm|
    ensures var next := Try(data, b, perm, ii, jj);
      Permutation(next) && Indexes(data, next) && Cost(data, b, next) <= Cost(data, b, perm)
  {
    hide Cost, Swapped, Square, Indexes, Permutation;
    SwapPermutation(perm, ii, jj);
  }

  lemma CostRange(data: seq<seq<real>>, b: int, perm: seq<nat>)
    requires b != 0 && Square(data) && |perm| == |data| && Permutation(perm)
    ensures Indexes(data, perm) && 0.0 <= Cost(data, b, perm) <= Total(data)
  {
    hide CostUpTo, NearUpTo, Total;
    CostPlusNear(data, b, perm);
    NearNotNegative(data, b, perm, |perm|);
  }

  class Mapper {
    const data: seq<seq<real>>
    const b: int
    const perm: array<nat>
    const operm: array<nat>
    var cost: real
    var ocost: real

    // What holds whenever the loop comes round.
    ghost predicate Valid()
      reads this, perm, operm
    {
      && b != 0 && Square(data) && perm != operm
      && perm.Length == operm.Length == |data|
      && Permutation(operm[..]) && perm[..] == operm[..]
      && Indexes(data, operm[..]) && ocost == Cost(data, b, operm[..])
    }

    constructor (traffic: seq<seq<real>>, block: int)
      requires Square(traffic) && block != 0
      ensures Valid() && data == traffic && b == block && fresh(perm) && fresh(operm)
      ensures forall i | 0 <= i < |data| :: operm[i] == i
    {
      data, b := traffic, block;
      perm := new nat[|traffic|](i => i);
      operm := new nat[|traffic|](i => i);
      cost, ocost := 0.0, 0.0;
      new;
      assert perm[..] == operm[..];
      Fits(data, perm[..]);
      cost := CommCost();
      ocost := cost;
    }

    method CommCost() returns (time: real)
      requires b != 0 && Indexes(data, perm[..])
      ensures time == Cost(data, b, perm[..]) == Sum(Charges(data, b, perm[..], perm.Length))
    {
      hide Apart, Charges, Sum;
      ghost var p := perm[..];
      CostIs(data, b, p);
      time := 0.0;
      for i := 0 to perm.Length
        invariant time == CostUpTo(data, b, p, i)
      {
        for j := 0 to perm.Length
          invariant time == CostUpTo(data, b, p, i) + RowCost(data, b, p, i, j)
        {
          assert p[i] == perm[i] && p[j] == perm[j];
          if data[perm[i]][perm[j]] > 0.0 {
            if Apart(b, i, j) {
              time := time + data[perm[i]][perm[j]];
            }
          }
        }
      }
    }

    method Copy(from: array<nat>, to: array<nat>)
      requires from.Length == to.Length && from != to
      modifies to
      ensures to[..] == from[..]
    {
      for i := 0 to from.Length
        invariant to[..i] == from[..i]
      {
        to[i] := from[i];
      }
    }

    // One turn of the loop, for two random places.
    method Turn(ii: nat, jj: nat)
      requires Valid() && ii < perm.Length && jj < perm.Length
      modifies this, perm, operm
      ensures Valid()
      ensures operm[..] == Try(data, b, old(operm[..]), ii, jj)
      // a swap that costs less is kept, and no other
      ensures var swapped := Swapped(old(operm[..]), ii, jj);
        && Indexes(data, swapped) && ocost <= old(ocost)
        && (ocost < old(ocost) <==> Cost(data, b, swapped) < old(ocost))
        && (ocost < old(ocost) ==> operm[..] == swapped && ocost == Cost(data, b, swapped))
        && (ocost == old(ocost) ==> operm[..] == old(operm[..]))
    {
      hide Cost, Square, Indexes;
      ghost var before := perm[..];
      var p := perm[ii];
      perm[ii] := perm[jj];
      perm[jj] := p;
      SwapPermutation(before, ii, jj);
      assert perm[..] == Swapped(before, ii, jj);
      Fits(data, perm[..]);
      cost := CommCost();
      if cost < ocost {
        ocost := cost;
        Copy(perm, operm);
      } else {
        Copy(operm, perm);
      }
    }
  }
}
