// The third pass of src/files.c: five lists of the same buckets, each exchange-sorted in its
// own direction inside one double loop.
module TypeOrder {

  // Bucket a goes before bucket b.
  predicate Beats(v: seq<real>, up: bool, a: nat, b: nat)
    requires a < |v| && b < |v|
  {
    if up then v[a] < v[b] else v[a] > v[b]
  }

  ghost predicate Indices(s: seq<nat>, v: seq<real>) {
    forall k | 0 <= k < |s| :: s[k] < |v|
  }

  // The first n entries are in order.
  ghost predicate Ordered(s: seq<nat>, v: seq<real>, up: bool, n: nat)
    requires Indices(s, v)
  {
    forall p, q | 0 <= p < q < n && q < |s| :: !Beats(v, up, s[q], s[p])
  }

  // What holds before entry i is compared with entry j.
  ghost predicate Sorting(s: seq<nat>, v: seq<real>, up: bool, i: nat, j: nat, list: seq<nat>) {
    && Indices(s, v) && multiset(s) == multiset(list) && |s| == |list|
    && Ordered(s, v, up, i)
    && (forall p | 0 <= p < j && p < |s| :: i < |s| ==> !Beats(v, up, s[i], s[p]))
  }

  function Exchanged(s: seq<nat>, v: seq<real>, up: bool, i: nat, j: nat): seq<nat>
    requires j < i < |s| && s[i] < |v| && s[j] < |v|
  {
    if Beats(v, up, s[i], s[j]) then s[j := s[i]][i := s[j]] else s
  }

  lemma SwapMultiset(s: seq<nat>, i: nat, j: nat)
    requires j < i < |s|
    ensures multiset(s[j := s[i]][i := s[j]]) == multiset(s)
  {
  }

  lemma SwapOrders(s: seq<nat>, v: seq<real>, up: bool, i: nat, j: nat)
    requires Indices(s, v) && j < i < |s| && Ordered(s, v, up, i) && Beats(v, up, s[i], s[j])
    requires forall p | 0 <= p < j :: !Beats(v, up, s[i], s[p])
    ensures var s' := s[j := s[i]][i := s[j]];
      Indices(s', v) && Ordered(s', v, up, i) && forall p | 0 <= p < j + 1 :: !Beats(v, up, s'[i], s'[p])
  {
  }

  lemma ExchangeKeeps(s: seq<nat>, v: seq<real>, up: bool, i: nat, j: nat, list: seq<nat>)
    requires Sorting(s, v, up, i, j, list) && j < i < |s|
    ensures Sorting(Exchanged(s, v, up, i, j), v, up, i, j + 1, list)
  {
    hide Ordered;
    if Beats(v, up, s[i], s[j]) {
      SwapOrders(s, v, up, i, j);
      SwapMultiset(s, i, j);
    }
  }

  lemma RowDone(s: seq<nat>, v: seq<real>, up: bool, i: nat, list: seq<nat>)
    requires Sorting(s, v, up, i, i, list) && i < |s|
    ensures Sorting(s, v, up, i + 1, 0, list)
  {
  }

  // Every entry is in order with every other, and the list is the same buckets.
  ghost predicate Sorted(s: seq<nat>, v: seq<real>, up: bool, list: seq<nat>) {
    Indices(s, v) && multiset(s) == multiset(list) && Ordered(s, v, up, |s|)
  }

  method Exchange(idx: array<nat>, v: seq<real>, up: bool, i: nat, j: nat, ghost list: seq<nat>)
    requires j < i < idx.Length && Sorting(idx[..], v, up, i, j, list)
    modifies idx
    ensures Sorting(idx[..], v, up, i, j + 1, list)
  {
    ExchangeKeeps(idx[..], v, up, i, j, list);
    ghost var s := idx[..];
    if Beats(v, up, idx[i], idx[j]) {
      var k := idx[j];
      idx[j] := idx[i];
      idx[i] := k;
    }
    assert idx[..] == Exchanged(s, v, up, i, j);
  }

  ghost predicate AllSorting(
    byNfile: seq<nat>, byNbyte: seq<nat>, byNblock: seq<nat>, byCage: seq<nat>, byMage: seq<nat>,
    nfile: seq<real>, nbyte: seq<real>, nblock: seq<real>, cage: seq<real>, mage: seq<real>,
    i: nat, j: nat, list: seq<nat>)
  {
    && Sorting(byNfile, nfile, false, i, j, list) && Sorting(byNbyte, nbyte, false, i, j, list)
    && Sorting(byNblock, nblock, false, i, j, list)
    && Sorting(byCage, cage, true, i, j, list) && Sorting(byMage, mage, true, i, j, list)
  }

  // Files, bytes and blocks come out largest first; the ages, which are times, earliest first.
  method ThirdPass(
    byNfile: array<nat>, byNbyte: array<nat>, byNblock: array<nat>, byCage: array<nat>, byMage: array<nat>,
    nfile: seq<real>, nbyte: seq<real>, nblock: seq<real>, cage: seq<real>, mage: seq<real>, list: seq<nat>)
    requires byNfile[..] == byNbyte[..] == byNblock[..] == byCage[..] == byMage[..] == list
    requires byNfile != byNbyte && byNfile != byNblock && byNfile != byCage && byNfile != byMage
    requires byNbyte != byNblock && byNbyte != byCage && byNbyte != byMage
    requires byNblock != byCage && byNblock != byMage && byCage != byMage
    requires Indices(list, nfile) && Indices(list, nbyte) && Indices(list, nblock) && Indices(list, cage)
    requires Indices(list, mage)
    modifies byNfile, byNbyte, byNblock, byCage, byMage
    ensures LargestFirst(byNfile[..], nfile) && LargestFirst(byNbyte[..], nbyte) && LargestFirst(byNblock[..], nblock)
    ensures SmallestFirst(byCage[..], cage) && SmallestFirst(byMage[..], mage)
    ensures Sorted(byNfile[..], nfile, false, list)
    ensures Sorted(byNbyte[..], nbyte, false, list)
    ensures Sorted(byNblock[..], nblock, false, list)
    ensures Sorted(byCage[..], cage, true, list)
    ensures Sorted(byMage[..], mage, true, list)
  {
    hide Sorting, Sorted, LargestFirst, SmallestFirst;
    Unsorted(list, nfile, false);
    Unsorted(list, nbyte, false);
    Unsorted(list, nblock, false);
    Unsorted(list, cage, true);
    Unsorted(list, mage, true);
    for i := 0 to byNfile.Length
      invariant AllSorting(byNfile[..], byNbyte[..], byNblock[..], byCage[..], byMage[..],
                           nfile, nbyte, nblock, cage, mage, i, 0, list)
    {
      for j := 0 to i
        invariant AllSorting(byNfile[..], byNbyte[..], byNblock[..], byCage[..], byMage[..],
                             nfile, nbyte, nblock, cage, mage, i, j, list)
      {
        Exchange(byNfile, nfile, false, i, j, list);
        Exchange(byNbyte, nbyte, false, i, j, list);
        Exchange(byNblock, nblock, false, i, j, list);
        Exchange(byCage, cage, true, i, j, list);
        Exchange(byMage, mage, true, i, j, list);
      }
      RowDone(byNfile[..], nfile, false, i, list);
      RowDone(byNbyte[..], nbyte, false, i, list);
      RowDone(byNblock[..], nblock, false, i, list);
      RowDone(byCage[..], cage, true, i, list);
      RowDone(byMage[..], mage, true, i, list);
    }
    AllRows(byNfile[..], nfile, false, list);
    AllRows(byNbyte[..], nbyte, false, list);
    AllRows(byNblock[..], nblock, false, list);
    AllRows(byCage[..], cage, true, list);
    AllRows(byMage[..], mage, true, list);
    SortedMeans(byNfile[..], nfile, list);
    SortedMeans(byNbyte[..], nbyte, list);
    SortedMeans(byNblock[..], nblock, list);
    SortedMeans(byCage[..], cage, list);
    SortedMeans(byMage[..], mage, list);
  }

  ghost predicate LargestFirst(s: seq<nat>, v: seq<real>) {
    Indices(s, v) && forall p, q | 0 <= p < q < |s| :: v[s[p]] >= v[s[q]]
  }

  ghost predicate SmallestFirst(s: seq<nat>, v: seq<real>) {
    Indices(s, v) && forall p, q | 0 <= p < q < |s| :: v[s[p]] <= v[s[q]]
  }

  lemma SortedMeans(s: seq<nat>, v: seq<real>, list: seq<nat>)
    ensures Sorted(s, v, false, list) ==> LargestFirst(s, v)
    ensures Sorted(s, v, true, list) ==> SmallestFirst(s, v)
  {
  }

  lemma Unsorted(list: seq<nat>, v: seq<real>, up: bool)
    requires Indices(list, v)
    ensures Sorting(list, v, up, 0, 0, list)
  {
  }

  lemma AllRows(s: seq<nat>, v: seq<real>, up: bool, list: seq<nat>)
    requires Sorting(s, v, up, |list|, 0, list)
    ensures Sorted(s, v, up, list)
  {
  }
}
