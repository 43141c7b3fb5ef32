// The rings that host discovery leaves behind are the ones the ring append runs on.
module RingTopology {
  import opened Finite
  import opened Topology
  import opened DiscoveryInvariant
  import D = Discovery
  import H = HostDiscovery
  import S = DiscoverySteps
  import F = DiscoverySafety
  import R = RingAppend

  // What the ranks know after host discovery; rank 0 broadcasts how many hosts it found.
  function NetOf(hosts: seq<Host>, e: H.State): R.Net
    requires |hosts| == |e.procs| > 0
  {
    R.Net(
      seq(|hosts|, x requires 0 <= x < |hosts| => H.Nat(e.procs[x].intraRoot)),
      seq(|hosts|, x requires 0 <= x < |hosts| => H.Nat(e.procs[x].intraSize)),
      seq(|hosts|, x requires 0 <= x < |hosts| => e.procs[x].intraLeft),
      seq(|hosts|, x requires 0 <= x < |hosts| => e.procs[x].intraRight),
      seq(|hosts|, x requires 0 <= x < |hosts| => e.procs[x].interLeft),
      seq(|hosts|, x requires 0 <= x < |hosts| => e.procs[x].interRight),
      |Roots(hosts)|)
  }

  function RingsOf(e: H.State): seq<seq<nat>> {
    seq(|e.procs|, x requires 0 <= x < |e.procs| => e.procs[x].ranks)
  }

  // The roots are the ranks that are the smallest of their host, in ascending order.
  lemma RootsAre(hosts: seq<Host>)
    requires |hosts| > 0
    ensures Roots(hosts) != [] && Roots(hosts)[0] == 0 && Distinct(Roots(hosts))
    ensures forall i, j | 0 <= i < j < |Roots(hosts)| :: Roots(hosts)[i] < Roots(hosts)[j]
    ensures forall x: nat :: x in Roots(hosts) <==> x < |hosts| && IsRoot(hosts, x)
  {
    hide TabOf, Root;
    TabDescribes(hosts, |hosts|);
    S.RootZero(hosts);
    forall x: nat | x < |hosts| && IsRoot(hosts, x)
      ensures x in Roots(hosts)
    {
      assert Root(hosts, x) in Roots(hosts);
    }
  }

  lemma CycleSteps(list: seq<nat>, right: int -> int, left: int -> int, k: nat)
    requires D.Cycle(list, right, left) && k < |list|
    ensures right(list[k]) == list[R.Succ(k, |list|)] && left(list[R.Succ(k, |list|)]) == list[k]
  {
  }

  lemma HostRingOk(hosts: seq<Host>, e: H.State, r: nat)
    requires |hosts| == |e.procs| > 0 && D.Discovered(hosts, e) && r < |hosts| && IsRoot(hosts, r)
    requires Distinct(e.procs[r].ranks) && |e.procs[r].ranks| == Population(hosts, r)
    ensures R.HostRing(NetOf(hosts, e), r, e.procs[r].ranks)
  {
    hide Root, TabOf, Roots, Population, D.Cycle;
    var list, net := e.procs[r].ranks, NetOf(hosts, e);
    forall k | 0 <= k < |list|
      ensures list[k] < |hosts| && net.intraRoot[list[k]] == r && net.intraSize[list[k]] == |list|
    {
      assert list[k] in list;
      SameSize(hosts, list[k]);
    }
    if |list| >= 2 {
      forall k | 0 <= k < |list|
        ensures net.intraRight[list[k]] == list[R.Succ(k, |list|)] && net.intraLeft[list[R.Succ(k, |list|)]] == list[k]
      {
        CycleSteps(list, D.IntraRight(e), D.IntraLeft(e), k);
      }
    }
  }

  lemma SameSize(hosts: seq<Host>, x: nat)
    requires x < |hosts|
    ensures Population(hosts, x) == Population(hosts, Root(hosts, x))
  {
    hide Population;
    D.SamePopulation(hosts, x);
  }

  lemma RootRingOk(hosts: seq<Host>, e: H.State)
    requires |hosts| == |e.procs| > 0 && D.Discovered(hosts, e)
    ensures R.RootRing(NetOf(hosts, e), Roots(hosts))
  {
    hide Root, TabOf, Roots, Population, D.Cycle, D.ListsHost;
    var roots, net := Roots(hosts), NetOf(hosts, e);
    RootsAre(hosts);
    forall j | 0 <= j < |roots|
      ensures roots[j] < |hosts| && net.intraRoot[roots[j]] == roots[j]
    {
      assert roots[j] in roots;
    }
    if |roots| >= 2 {
      forall j | 0 <= j < |roots|
        ensures net.interRight[roots[j]] == roots[R.Succ(j, |roots|)]
        ensures net.interLeft[roots[R.Succ(j, |roots|)]] == roots[j]
      {
        CycleSteps(roots, D.InterRight(e), D.InterLeft(e), j);
      }
    }
  }

  // Whatever run of host discovery came before, its result is fit for the ring append.
  lemma DiscoveryGivesRings(hosts: seq<Host>, s: H.State, moves: seq<D.Move>)
    requires |hosts| >= 2 && H.Initial(hosts, s) && D.Legal(hosts, s, moves) && D.AllDone(hosts, D.Run(hosts, s, moves))
    ensures var e := D.Run(hosts, s, moves); R.NetOk(NetOf(hosts, e), Roots(hosts), RingsOf(e))
  {
    hide Root, TabOf, Roots, Population, D.Legal, D.Run, D.ListsHost, D.AllDone, R.HostRing, R.RootRing,
      LocalOk, ChannelOk, PlacesOk, D.Discovered, D.TotalLeft;
    var e := D.Run(hosts, s, moves);
    DoneInvariant(hosts, s, moves);
    D.AllDiscovered(hosts, e);
    RootRingOk(hosts, e);
    var net, rings := NetOf(hosts, e), RingsOf(e);
    forall x | 0 <= x < |rings|
      ensures net.intraRoot[x] in Roots(hosts) && net.intraRoot[x] < |rings| && x in rings[net.intraRoot[x]]
    {
      RankPlaced(hosts, e, x);
    }
    forall r | 0 <= r < |rings| && net.intraRoot[r] == r
      ensures R.HostRing(net, r, rings[r])
    {
      RankPlaced(hosts, e, r);
      D.DoneLists(hosts, e, r);
      HostRingOk(hosts, e, r);
    }
  }

  lemma DoneInvariant(hosts: seq<Host>, s: H.State, moves: seq<D.Move>)
    requires |hosts| >= 2 && H.Initial(hosts, s) && D.Legal(hosts, s, moves)
    ensures Invariant(hosts, D.Run(hosts, s, moves))
  {
    hide Invariant;
    F.InitialOk(hosts, s);
    D.RunKeeps(hosts, s, moves);
  }

  lemma RankPlaced(hosts: seq<Host>, e: H.State, x: nat)
    requires |hosts| == |e.procs| > 0 && D.Discovered(hosts, e) && x < |hosts|
    ensures H.Nat(e.procs[x].intraRoot) == Root(hosts, x) && Root(hosts, x) in Roots(hosts)
    ensures x in e.procs[Root(hosts, x)].ranks
  {
    hide Root, TabOf, Roots, Population, D.Cycle;
    S.RootIdempotent(hosts, x);
    RootsAre(hosts);
    assert D.ListsHost(hosts, Root(hosts, x), e.procs[Root(hosts, x)].ranks);
  }
}
