// Texts joined in order, and texts kept in buffers of fixed size.
module Texts {

  function Joined(parts: seq<string>): string {
    if parts == [] then "" else Joined(parts[..|parts| - 1]) + parts[|parts| - 1]
  }

  lemma JoinedSnoc(parts: seq<string>, part: string)
    ensures Joined(parts + [part]) == Joined(parts) + part
  {
    assert (parts + [part])[..|parts|] == parts;
  }

  // What a copy of at most n characters keeps.
  function Kept(s: string, n: nat): string {
    if |s| <= n then s else s[..n]
  }

  // Both texts have the same character at place i, or both have ended.
  predicate AgreeAt(a: string, b: string, i: nat) {
    (i < |a| <==> i < |b|) && (i < |a| && i < |b| ==> a[i] == b[i])
  }

  // What is kept is equal exactly when the first n places agree.
  lemma KeptIff(a: string, b: string, n: nat)
    ensures Kept(a, n) == Kept(b, n) <==> forall i: nat | i < n :: AgreeAt(a, b, i)
  {
    if Kept(a, n) == Kept(b, n) {
      forall i: nat | i < n
        ensures AgreeAt(a, b, i)
      {
        KeptAt(a, n, i);
        KeptAt(b, n, i);
      }
    } else if forall i: nat | i < n :: AgreeAt(a, b, i) {
      AgreeingKept(a, b, n);
    }
  }

  lemma KeptAt(s: string, n: nat, i: nat)
    requires i < n
    ensures AgreeAt(s, Kept(s, n), i)
  {
  }

  lemma AgreeingKept(a: string, b: string, n: nat)
    requires forall i: nat | i < n :: AgreeAt(a, b, i)
    ensures Kept(a, n) == Kept(b, n)
  {
    NoLonger(a, b, n);
    NoLonger(b, a, n);
    var x, y := Kept(a, n), Kept(b, n);
    forall i: nat | i < |x|
      ensures x[i] == y[i]
    {
      KeptAt(a, n, i);
      KeptAt(b, n, i);
      assert AgreeAt(a, b, i);
    }
  }

  lemma NoLonger(a: string, b: string, n: nat)
    requires forall i: nat | i < n :: AgreeAt(a, b, i) && AgreeAt(b, a, i)
    ensures |Kept(b, n)| <= |Kept(a, n)|
  {
    var i := |Kept(a, n)|;
    if i < n {
      KeptAt(b, n, i);
      assert AgreeAt(a, b, i);
    }
  }
}
