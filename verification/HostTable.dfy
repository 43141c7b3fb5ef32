// The arrays rank 0 fills while host names arrive (src/ipm_mpi_machtopo.c).
module HostTable {
  import opened Topology

  class Table {
    const hlist: array<Host>
    const localRoots: array<int>
    const localSizes: array<nat>
    var nhosts: nat

    ghost predicate Valid()
      reads this, hlist, localRoots, localSizes
    {
      && hlist.Length == localRoots.Length == localSizes.Length
      && 1 <= nhosts <= hlist.Length
      && (forall k | 0 <= k < nhosts :: localRoots[k] >= 0)
      && (forall k | nhosts <= k < hlist.Length :: localSizes[k] == 0)
    }

    ghost function Tab(): HostTab
      requires Valid()
      reads this, hlist, localRoots, localSizes
    {
      HostTab(hlist[..nhosts],
              seq(nhosts, k requires 0 <= k < nhosts && nhosts <= localRoots.Length && localRoots[k] >= 0
                            reads this, localRoots => localRoots[k] as nat),
              localSizes[..nhosts])
    }

    // Rank 0 starts with its own host.
    constructor (mpiSize: nat, hostname: Host)
      requires mpiSize >= 1
      ensures Valid() && fresh(hlist) && fresh(localRoots) && fresh(localSizes) && hlist.Length == mpiSize
      ensures Tab() == HostTab([hostname], [0], [1])
    {
      hlist := new Host[mpiSize](_ => "");
      localRoots := new int[mpiSize](_ => -1);
      localSizes := new nat[mpiSize](_ => 0);
      nhosts := 1;
      new;
      hlist[0] := hostname;
      localRoots[0] := 0;
      localSizes[0] := 1;
    }

    // One pass of the gathering loop: hn has arrived from rank i, which is sent back root.
    // The search runs over a table that grows under it: at its last entry it appends the
    // new host and finds it on the next turn.
    method Record(i: nat, hn: Host) returns (root: int)
      requires Valid() && nhosts <= i < hlist.Length
      modifies this, hlist, localRoots, localSizes
      ensures Valid() && nhosts <= i + 1
      ensures Tab() == Enlist(old(Tab()), i, hn)
      ensures root == Tab().roots[Find(old(Tab()).names, hn)]
    {
      ghost var n := nhosts;
      ghost var tab := Tab();
      var j := 0;
      while j < nhosts
        invariant 0 <= j <= n <= nhosts <= n + 1 && n <= i
        invariant hlist[..n] == tab.names
        invariant forall k | 0 <= k < j :: !SameHost(hlist[k], hn)
        invariant nhosts == n ==> j < n && unchanged(hlist) && unchanged(localRoots)
        invariant nhosts == n + 1 ==> j == n && hlist[n] == hn && localRoots[n] == i
        invariant forall k | 0 <= k < n :: localRoots[k] == old(localRoots[k])
        invariant unchanged(localSizes)
        decreases n + 1 - j
      {
        if SameHost(hn, hlist[j]) {
          break;
        }
        if j == nhosts - 1 {
          hlist[j + 1] := hn;
          localRoots[j + 1] := i;
          nhosts := nhosts + 1;
        }
        j := j + 1;
      }
      FoundAt(tab.names, hn, j);
      localSizes[j] := localSizes[j] + 1;
      root := localRoots[j];
      assert localSizes[..nhosts] == if j < n then tab.sizes[j := tab.sizes[j] + 1] else tab.sizes + [1];
      assert hlist[..nhosts] == if j < n then tab.names else tab.names + [hn];
    }
  }

  lemma FoundAt(names: seq<Host>, h: Host, j: nat)
    requires j <= |names| && forall k | 0 <= k < j :: !SameHost(names[k], h)
    requires j < |names| ==> SameHost(names[j], h)
    ensures Find(names, h) == j
  {
  }
}
