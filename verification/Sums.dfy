// Sums of real sequences, and that a permutation does not change them.
module Sums {
  import opened Finite

  function Sum(v: seq<real>): real {
    if v == [] then 0.0 else Sum(v[..|v| - 1]) + v[|v| - 1]
  }

  // The sum of v over the indices listed in s.
  function SumAt(v: seq<real>, s: seq<nat>): real
    requires forall k | 0 <= k < |s| :: s[k] < |v|
  {
    if s == [] then 0.0 else SumAt(v, s[..|s| - 1]) + v[s[|s| - 1]]
  }

  lemma SumSnoc(v: seq<real>, x: real)
    ensures Sum(v + [x]) == Sum(v) + x
  {
    assert (v + [x])[..|v|] == v;
  }

  lemma {:induction false} AllZeros(v: seq<real>)
    requires forall i | 0 <= i < |v| :: v[i] == 0.0
    ensures Sum(v) == 0.0
  {
    if v != [] {
      AllZeros(v[..|v| - 1]);
    }
  }

  lemma {:induction false} SumAtJoin(v: seq<real>, s: seq<nat>, t: seq<nat>)
    requires (forall k | 0 <= k < |s| :: s[k] < |v|) && forall k | 0 <= k < |t| :: t[k] < |v|
    ensures SumAt(v, s + t) == SumAt(v, s) + SumAt(v, t)
  {
    if t == [] {
      assert s + t == s;
    } else {
      var n := |t| - 1;
      SumAtJoin(v, s, t[..n]);
      assert (s + t)[..|s| + n] == s + t[..n];
    }
  }

  lemma {:induction false} SumAtPrefix(v: seq<real>, w: seq<real>, s: seq<nat>)
    requires |v| <= |w| && v == w[..|v|] && forall k | 0 <= k < |s| :: s[k] < |v|
    ensures SumAt(v, s) == SumAt(w, s)
  {
    if s != [] {
      SumAtPrefix(v, w, s[..|s| - 1]);
    }
  }

  // Summing in the order of a permutation is summing.
  lemma {:induction false} SumPermuted(v: seq<real>, s: seq<nat>)
    requires |s| == |v| && Permutation(s)
    ensures SumAt(v, s) == Sum(v)
  {
    if s != [] {
      var n := |s| - 1;
      PermutationCovers(s, n);
      var k :| 0 <= k < |s| && s[k] == n;
      var rest := s[..k] + s[k + 1..];
      RestPermutes(s, k);
      SumPermuted(v[..n], rest);
      SumAtPrefix(v[..n], v, rest);
      TakeOut(v, s, k);
    }
  }

  lemma TakeOut(v: seq<real>, s: seq<nat>, k: nat)
    requires k < |s| && forall i | 0 <= i < |s| :: s[i] < |v|
    ensures SumAt(v, s) == SumAt(v, s[..k] + s[k + 1..]) + v[s[k]]
  {
    hide SumAt;
    var a, b := s[..k], s[k + 1..];
    assert s == a + [s[k]] + b;
    TakeOutBetween(v, a, s[k], b);
  }

  lemma TakeOutBetween(v: seq<real>, a: seq<nat>, x: nat, b: seq<nat>)
    requires (forall i | 0 <= i < |a| :: a[i] < |v|) && x < |v| && forall i | 0 <= i < |b| :: b[i] < |v|
    ensures SumAt(v, a + [x] + b) == SumAt(v, a + b) + v[x]
  {
    SumAtJoin(v, a, b);
    SumAtJoin(v, a + [x], b);
    assert (a + [x])[..|a|] == a;
  }

  lemma RestPermutes(s: seq<nat>, k: nat)
    requires Permutation(s) && k < |s| && s[k] == |s| - 1
    ensures Permutation(s[..k] + s[k + 1..])
  {
    var rest := s[..k] + s[k + 1..];
    forall i | 0 <= i < |rest|
      ensures rest[i] < |rest|
    {
      var j := if i < k then i else i + 1;
      assert rest[i] == s[j];
    }
    forall i, j | 0 <= i < j < |rest|
      ensures rest[i] != rest[j]
    {
      assert rest[i] == s[if i < k then i else i + 1];
      assert rest[j] == s[if j < k then j else j + 1];
    }
  }
}
