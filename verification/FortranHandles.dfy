// Writing request handles back to Fortran after MPI_TESTSOME and MPI_WAITSOME
// (src/ipm_fortran.c).
module FortranHandles {

  // What MPI_Testsome reports: how many requests completed, and which.  The count is
  // negative (MPI_UNDEFINED) when there was no active request.
  ghost predicate Reported(onum: int, indices: seq<int>, n: nat) {
    && onum <= n && onum <= |indices|
    && forall k | 0 <= k < onum :: 0 <= indices[k] < n
  }

  predicate Listed(indices: seq<int>, onum: int, i: int)
    requires onum <= |indices|
  {
    exists k :: 0 <= k < onum && indices[k] == i
  }

  // Request i keeps its old handle when it is neither written for being listed nor found
  // missing from the list.
  predicate Skipped(indices: seq<int>, onum: int, i: int)
    requires onum <= |indices|
  {
    i < onum && !Listed(indices, onum, i)
  }

  // The handles after the loop.
  ghost predicate WrittenBack(requests: seq<int>, was: seq<int>, creq: seq<int>, c2f: int -> int, indices: seq<int>,
                              onum: int)
    requires |requests| == |was| == |creq| && onum <= |indices|
  {
    forall i | 0 <= i < |requests| :: requests[i] == if Skipped(indices, onum, i) then was[i] else c2f(creq[i])
  }

  // creq, cstat, onum and the indices are as MPI_Testsome left them; success says that it
  // returned MPI_SUCCESS.  Requests that have not completed keep the C handle that f2c made.
  method TestSome(requests: array<int>, indices: array<int>, statuses: array<int>,
                  creq: seq<int>, cstat: seq<int>, onum: int, success: bool,
                  c2f: int -> int, statusC2f: int -> int, ghost f2c: int -> int)
    requires requests.Length == |creq| && |cstat| == |creq| && onum <= statuses.Length
    requires requests != indices && requests != statuses && indices != statuses
    requires success ==> Reported(onum, indices[..], |creq|)
    requires success ==> forall i | 0 <= i < |creq| && !Listed(indices[..], onum, i) :: creq[i] == f2c(requests[i])
    modifies requests, indices, statuses
    ensures !success ==>
      requests[..] == old(requests[..]) && indices[..] == old(indices[..]) && statuses[..] == old(statuses[..])
    ensures success ==> WrittenBack(requests[..], old(requests[..]), creq, c2f, old(indices[..]), onum)
    // every handle is up to date exactly when the skipped ones survive the trip to C and back
    ensures success ==>
      ((forall i | 0 <= i < |creq| :: requests[i] == c2f(creq[i]))
       <==> (forall i | 0 <= i < |creq| && Skipped(old(indices[..]), onum, i) ::
               c2f(f2c(old(requests[..])[i])) == old(requests[..])[i]))
    // Fortran counts from one
    ensures success ==>
      forall k | 0 <= k < indices.Length :: indices[k] == old(indices[k]) + (if k < onum then 1 else 0)
    ensures success ==> forall k | 0 <= k < statuses.Length ::
      statuses[k] == if k < onum then statusC2f(cstat[k]) else old(statuses[k])
  {
    if success {
      WriteBack(requests, indices, creq, onum, c2f);
      AllConverted(requests[..], old(requests[..]), creq, c2f, f2c, old(indices[..]), onum);
      Statuses(indices, statuses, cstat, onum, statusC2f);
    }
  }

  // The second loop.
  method Statuses(indices: array<int>, statuses: array<int>, cstat: seq<int>, onum: int, statusC2f: int -> int)
    requires indices != statuses && onum <= statuses.Length && Reported(onum, indices[..], |cstat|)
    modifies indices, statuses
    ensures forall k | 0 <= k < indices.Length :: indices[k] == old(indices[k]) + (if k < onum then 1 else 0)
    ensures forall k | 0 <= k < statuses.Length ::
      statuses[k] == if k < onum then statusC2f(cstat[k]) else old(statuses[k])
  {
    var i := 0;
    while i < onum
      invariant i == 0 || 0 < i <= onum
      invariant forall k | 0 <= k < indices.Length :: indices[k] == old(indices[k]) + (if k < i then 1 else 0)
      invariant forall k | 0 <= k < statuses.Length ::
        statuses[k] == if k < i then statusC2f(cstat[k]) else old(statuses[k])
    {
      statuses[i] := statusC2f(cstat[i]);
      if indices[i] >= 0 {
        indices[i] := indices[i] + 1;
      }
      i := i + 1;
    }
  }

  lemma AllConverted(requests: seq<int>, was: seq<int>, creq: seq<int>, c2f: int -> int, f2c: int -> int,
                     indices: seq<int>, onum: int)
    requires |requests| == |was| == |creq| && onum <= |indices|
    requires WrittenBack(requests, was, creq, c2f, indices, onum)
    requires forall i | 0 <= i < |was| && !Listed(indices, onum, i) :: creq[i] == f2c(was[i])
    ensures (forall i | 0 <= i < |was| :: requests[i] == c2f(creq[i]))
       <==> (forall i | 0 <= i < |was| && Skipped(indices, onum, i) :: c2f(f2c(was[i])) == was[i])
  {
  }

  // The first loop: the listed handles are written while i runs over the list, and the rest
  // of the handles when i has passed it and does not find them on it.
  method WriteBack(requests: array<int>, indices: array<int>, creq: seq<int>, onum: int, c2f: int -> int)
    requires requests.Length == |creq| && requests != indices
    requires Reported(onum, indices[..], |creq|)
    modifies requests
    ensures WrittenBack(requests[..], old(requests[..]), creq, c2f, indices[..], onum)
    ensures forall k | 0 <= k < onum :: requests[indices[k]] == c2f(creq[indices[k]])
    ensures forall i | 0 <= i < requests.Length && i >= onum :: requests[i] == c2f(creq[i])
    ensures forall i | 0 <= i < onum && (forall k | 0 <= k < onum :: indices[k] != i) :: requests[i] == old(requests[i])
  {
    ghost var list := indices[..];
    for i := 0 to requests.Length
      invariant forall m | 0 <= m < requests.Length ::
        requests[m] == if Done(list, onum, i, m) then c2f(creq[m]) else old(requests[m])
    {
      if i < onum {
        requests[indices[i]] := c2f(creq[indices[i]]);
        OneMoreListed(list, onum, i, |creq|);
      } else {
        var found, j := false, 0;
        while !found && j < onum
          invariant j == 0 || 0 < j <= onum
          invariant found <==> exists k :: 0 <= k < j && list[k] == i
        {
          if indices[j] == i {
            found := true;
          }
          j := j + 1;
        }
        if !found {
          requests[i] := c2f(creq[i]);
        }
        OneMorePast(list, onum, i, |creq|);
      }
    }
    AllDone(list, onum, |creq|);
  }

  ghost predicate InFirst(list: seq<int>, n: int, m: int) {
    exists k :: 0 <= k < n && k < |list| && list[k] == m
  }

  // After i turns handle m has been written.
  ghost predicate Done(list: seq<int>, onum: int, i: nat, m: nat) {
    InFirst(list, Passed(onum, i), m) || onum <= m < i
  }

  // How much of the list i turns have gone over.
  function Passed(onum: int, i: nat): int {
    if i < onum then i else onum
  }

  lemma InOneMore(list: seq<int>, i: nat, m: int)
    requires i < |list|
    ensures InFirst(list, i + 1, m) <==> InFirst(list, i, m) || m == list[i]
  {
    if InFirst(list, i, m) {
      var k :| 0 <= k < i && k < |list| && list[k] == m;
      assert k < i + 1;
    }
  }

  lemma OneMoreListed(list: seq<int>, onum: int, i: nat, n: nat)
    requires Reported(onum, list, n) && i < onum
    ensures forall m: nat :: Done(list, onum, i + 1, m) <==> Done(list, onum, i, m) || m == list[i]
  {
    forall m: nat
      ensures Done(list, onum, i + 1, m) <==> Done(list, onum, i, m) || m == list[i]
    {
      InOneMore(list, i, m);
    }
  }

  lemma OneMorePast(list: seq<int>, onum: int, i: nat, n: nat)
    requires Reported(onum, list, n) && onum <= i
    ensures forall m: nat :: Done(list, onum, i + 1, m) <==> Done(list, onum, i, m) || m == i
  {
    forall m: nat
      ensures Done(list, onum, i + 1, m) <==> Done(list, onum, i, m) || m == i
    {
      PastDone(list, onum, i, m);
      PastDone(list, onum, i + 1, m);
    }
  }

  lemma PastDone(list: seq<int>, onum: int, i: nat, m: nat)
    requires onum <= i
    ensures Done(list, onum, i, m) <==> InFirst(list, onum, m) || onum <= m < i
  {
    hide InFirst;
  }

  lemma AllDone(list: seq<int>, onum: int, n: nat)
    requires Reported(onum, list, n)
    ensures forall m: nat | m < n :: Done(list, onum, n, m) <==> !Skipped(list, onum, m)
  {
  }
}
