// Counting facts about finite sets and index permutations.
module Finite {

  // The numbers below n.
  ghost function Slots(n: nat): (s: set<nat>)
    ensures |s| == n
    ensures forall i: nat :: i in s <==> i < n
  {
    if n == 0 then {} else Slots(n - 1) + {n - 1}
  }

  lemma SubsetSize<T>(a: set<T>, b: set<T>)
    requires a <= b
    ensures |a| <= |b|
    ensures |a| == |b| ==> a == b
  {
    assert b == a + (b - a);
  }

  // s lists the numbers below |s|, each once.
  ghost predicate Permutation(s: seq<nat>) {
    IsIndexing(s) && Distinct(s)
  }

  ghost predicate IsIndexing(s: seq<nat>) {
    forall k | 0 <= k < |s| :: s[k] < |s|
  }

  ghost predicate Distinct(s: seq<nat>) {
    forall j, k | 0 <= j < k < |s| :: s[j] != s[k]
  }

  ghost function Elements(s: seq<nat>): set<nat> {
    set k | 0 <= k < |s| :: s[k]
  }

  lemma {:induction false} DistinctSize(s: seq<nat>)
    requires Distinct(s)
    ensures |Elements(s)| == |s|
  {
    if s != [] {
      var n := |s| - 1;
      DistinctSize(s[..n]);
      assert Elements(s) == Elements(s[..n]) + {s[n]};
      assert s[n] !in Elements(s[..n]);
    }
  }

  // Every number below |s| is in a permutation.
  lemma PermutationCovers(s: seq<nat>, v: nat)
    requires Permutation(s) && v < |s|
    ensures exists k :: 0 <= k < |s| && s[k] == v
  {
    DistinctSize(s);
    SubsetSize(Elements(s), Slots(|s|));
    assert v in Elements(s);
  }

  // If the first m entries of a permutation are all below m, they are exactly the numbers
  // below m, and the rest are exactly the others.
  lemma PrefixCovers(s: seq<nat>, m: nat, v: nat)
    requires Permutation(s) && m <= |s| && v < m
    requires forall k | 0 <= k < m :: s[k] < m
    ensures exists k :: 0 <= k < m && s[k] == v
  {
    assert Permutation(s[..m]);
    PermutationCovers(s[..m], v);
    var k :| 0 <= k < m && s[..m][k] == v;
    assert s[k] == v;
  }

  lemma SuffixRest(s: seq<nat>, m: nat, k: nat)
    requires Permutation(s) && m <= k < |s|
    requires forall i | 0 <= i < m :: s[i] < m
    ensures s[k] >= m
  {
    if s[k] < m {
      PrefixCovers(s, m, s[k]);
    }
  }

  lemma Displaced(s: seq<nat>, m: nat, k: nat)
    requires Permutation(s) && m <= k < |s| && s[k] < m
    ensures exists p :: 0 <= p < m && s[p] >= m
  {
    if forall i | 0 <= i < m :: s[i] < m {
      SuffixRest(s, m, k);
    }
  }

  // m distinct numbers below m leave no room for another one.
  lemma NoRoom(s: seq<nat>, p: nat, m: nat)
    requires Permutation(s) && p < m <= |s| && s[p] >= m
    ensures exists k :: m <= k < |s| && s[k] < m
  {
    if forall k | m <= k < |s| :: s[k] >= m {
      var low := Slots(m);
      var others := Elements(s[..m]) - {s[p]};
      DistinctSize(s[..m]);
      assert s[..m][p] == s[p];
      forall v | v in low
        ensures v in others
      {
        PermutationCovers(s, v);
        var k :| 0 <= k < |s| && s[k] == v;
        assert s[..m][k] == v;
      }
      SubsetSize(low, others);
    }
  }

  function Swapped(s: seq<nat>, i: nat, j: nat): (t: seq<nat>)
    requires i < |s| && j < |s|
    ensures |t| == |s| && t[i] == s[j] && t[j] == s[i]
    ensures forall k | 0 <= k < |s| && k != i && k != j :: t[k] == s[k]
  {
    s[i := s[j]][j := s[i]]
  }

  lemma SwapPermutation(s: seq<nat>, i: nat, j: nat)
    requires i < |s| && j < |s| && Permutation(s)
    ensures Permutation(Swapped(s, i, j))
  {
  }
}
