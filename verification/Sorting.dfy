// index_doubles of src/ipm_util.c: the exchange sort that compares every position with
// every position.
module Sorting {
  import opened Finite

  ghost predicate Descending(idx: seq<nat>, val: seq<real>, n: nat)
    requires n <= |idx| <= |val| && forall k | 0 <= k < |idx| :: idx[k] < |idx|
  {
    forall j, k | 0 <= j < k < n :: val[idx[j]] >= val[idx[k]]
  }

  // The entry at position m is not above any other.
  ghost predicate LeastAt(idx: seq<nat>, val: seq<real>, m: nat)
    requires m < |idx| <= |val| && forall k | 0 <= k < |idx| :: idx[k] < |idx|
  {
    forall k | 0 <= k < |idx| :: val[idx[m]] <= val[idx[k]]
  }

  // Where outer pass i stands when the inner loop reaches j: the first i entries are in
  // descending order, those before j have been made at least as large as entry i, and the
  // least entry sits at i - 1 until it has been exchanged into place i.
  ghost predicate PassAt(idx: seq<nat>, val: seq<real>, i: nat, j: nat)
    requires i < |idx| <= |val| && j <= |idx|
  {
    && Permutation(idx)
    && Descending(idx, val, i)
    && (forall k | 0 <= k < j && k < i :: val[idx[k]] >= val[idx[i]])
    && (i == 0 ==> forall k | 0 <= k < j :: val[idx[0]] <= val[idx[k]])
    && (0 < i ==> LeastAt(idx, val, if j < i then i - 1 else i))
  }

  // One comparison of the inner loop, with its exchange.
  lemma PassStep(idx: seq<nat>, val: seq<real>, i: nat, j: nat)
    requires i < |idx| <= |val| && j < |idx| && PassAt(idx, val, i, j)
    ensures val[idx[i]] > val[idx[j]] ==> PassAt(Swapped(idx, i, j), val, i, j + 1)
    ensures !(val[idx[i]] > val[idx[j]]) ==> PassAt(idx, val, i, j + 1)
  {
    if val[idx[i]] > val[idx[j]] {
      SwapPermutation(idx, i, j);
      if 0 < i {
        assert j < i;
      }
    }
  }

  lemma PassEnd(idx: seq<nat>, val: seq<real>, i: nat)
    requires i < |idx| <= |val| && PassAt(idx, val, i, |idx|)
    ensures Permutation(idx) && Descending(idx, val, i + 1) && LeastAt(idx, val, i)
    ensures i + 1 < |idx| ==> PassAt(idx, val, i + 1, 0)
  {
  }

  // After outer pass i the first i + 1 entries are in descending order and entry i is the
  // least of all.
  ghost predicate AfterPasses(idx: seq<nat>, val: seq<real>, i: nat)
    requires i <= |idx| <= |val|
  {
    Permutation(idx) && Descending(idx, val, i) && (0 < i ==> LeastAt(idx, val, i - 1))
  }

  // All values from m on are least, and some value before m is as well.
  ghost predicate LeastTail(val: seq<real>, m: nat) {
    exists z :: 0 <= z < m <= |val| && BoundsTail(val, z, m)
  }

  ghost predicate BoundsTail(val: seq<real>, z: nat, m: nat)
    requires z < m <= |val|
  {
    (forall k | 0 <= k < |val| :: val[z] <= val[k]) && forall k | m <= k < |val| :: val[k] == val[z]
  }

  // Such a tail is never touched.
  ghost predicate TailKept(idx: seq<nat>, val: seq<real>) {
    forall m: nat | LeastTail(val, m) :: FixedFrom(idx, m)
  }

  ghost predicate FixedFrom(idx: seq<nat>, m: nat) {
    forall k | m <= k < |idx| :: idx[k] == k
  }

  lemma TailStep(idx: seq<nat>, val: seq<real>, i: nat, j: nat)
    requires i < |idx| == |val| && j < |idx| && PassAt(idx, val, i, j)
    requires TailKept(idx, val) && val[idx[i]] > val[idx[j]]
    ensures TailKept(Swapped(idx, i, j), val)
  {
    forall m: nat | LeastTail(val, m)
      ensures FixedFrom(Swapped(idx, i, j), m)
    {
      assert FixedFrom(idx, m);
      ExchangeBelowTail(idx, val, i, j, m);
    }
  }

  lemma ExchangeBelowTail(idx: seq<nat>, val: seq<real>, i: nat, j: nat, m: nat)
    requires i < |idx| == |val| && j < |idx| && PassAt(idx, val, i, j)
    requires LeastTail(val, m) && FixedFrom(idx, m) && val[idx[i]] > val[idx[j]]
    ensures i < m && j < m
  {
    var z :| 0 <= z < m <= |val| && BoundsTail(val, z, m);
    PermutationCovers(idx, z);
    var k :| 0 <= k < |idx| && idx[k] == z;
    assert k < m;
    assert val[z] <= val[idx[j]];
  }

  method IndexDoubles(n: nat, idx: array<nat>, val: array<real>)
    requires n == idx.Length == val.Length
    modifies idx
    ensures Permutation(idx[..]) && Descending(idx[..], val[..], n)
    ensures TailKept(idx[..], val[..])
  {
    for i := 0 to n
      invariant forall k | 0 <= k < i :: idx[k] == k
    {
      idx[i] := i;
    }
    for i := 0 to n
      invariant AfterPasses(idx[..], val[..], i) && TailKept(idx[..], val[..])
    {
      hide Permutation, Descending, LeastAt, TailKept;
      PassStart(idx[..], val[..], i);
      for j := 0 to n
        invariant IsIndexing(idx[..]) && PassAt(idx[..], val[..], i, j)
        invariant TailKept(idx[..], val[..])
      {
        ghost var s := idx[..];
        PassStep(s, val[..], i, j);
        if val[idx[i]] > val[idx[j]] {
          TailStep(s, val[..], i, j);
          var k := idx[i];
          idx[i] := idx[j];
          idx[j] := k;
          assert idx[..] == Swapped(s, i, j);
        }
      }
      PassEnd(idx[..], val[..], i);
    }
  }

  lemma PassStart(idx: seq<nat>, val: seq<real>, i: nat)
    requires i < |idx| <= |val| && AfterPasses(idx, val, i)
    ensures IsIndexing(idx) && PassAt(idx, val, i, 0)
  {
  }

  // A tail of zeros: the sort puts the first m indices first exactly when none of their
  // values is negative (or there is no tail).  Indices before m whose value is zero too
  // stay in front of the tail although they tie with it.
  lemma ZeroTailOrder(idx: seq<nat>, val: seq<real>, m: nat)
    requires |idx| == |val| && m <= |val|
    requires Permutation(idx) && Descending(idx, val, |idx|) && TailKept(idx, val)
    requires forall k | m <= k < |val| :: val[k] == 0.0
    ensures (forall k | 0 <= k < m :: idx[k] < m)
      <==> m == |val| || forall k | 0 <= k < m :: val[k] >= 0.0
  {
    if m < |val| {
      if forall k | 0 <= k < m :: val[k] >= 0.0 {
        forall p | 0 <= p < m
          ensures idx[p] < m
        {
          TailBehind(idx, val, m, p);
        }
      } else {
        var r :| 0 <= r < m && val[r] < 0.0;
        NegativeBehind(idx, val, m, r);
      }
    }
  }

  // A negative value ends up behind the zeros of the tail.
  lemma NegativeBehind(idx: seq<nat>, val: seq<real>, m: nat, r: nat)
    requires |idx| == |val| && r < m < |val|
    requires Permutation(idx) && Descending(idx, val, |idx|)
    requires val[m] == 0.0 && val[r] < 0.0
    ensures exists k :: 0 <= k < m && idx[k] >= m
  {
    PermutationCovers(idx, r);
    PermutationCovers(idx, m);
    var k :| 0 <= k < |idx| && idx[k] == r;
    var q :| 0 <= q < |idx| && idx[q] == m;
    if k >= m {
      Displaced(idx, m, k);
    }
  }

  // No index of a zero tail comes among the first m when the others are not negative.
  lemma TailBehind(idx: seq<nat>, val: seq<real>, m: nat, p: nat)
    requires |idx| == |val| && p < m < |val|
    requires Permutation(idx) && Descending(idx, val, |idx|) && TailKept(idx, val)
    requires (forall k | m <= k < |val| :: val[k] == 0.0) && forall k | 0 <= k < m :: val[k] >= 0.0
    ensures idx[p] < m
  {
    if idx[p] >= m {
      NoRoom(idx, p, m);
      var k :| m <= k < |idx| && idx[k] < m;
      assert val[idx[p]] >= val[idx[k]];
      ZeroFixesTail(idx, val, m, idx[k]);
    }
  }

  lemma ZeroFixesTail(idx: seq<nat>, val: seq<real>, m: nat, z: nat)
    requires |idx| == |val| && z < m < |val| && val[z] == 0.0 && TailKept(idx, val)
    requires (forall k | m <= k < |val| :: val[k] == 0.0) && forall k | 0 <= k < m :: val[k] >= 0.0
    ensures FixedFrom(idx, m)
  {
    assert BoundsTail(val, z, m);
    assert LeastTail(val, m);
  }
}
