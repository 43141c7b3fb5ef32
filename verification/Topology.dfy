// Which ranks share a host: roots, populations, and the host table rank 0 of
// src/ipm_mpi_machtopo.c builds while host names arrive.
module Topology {
  import opened Texts

  type Host = string

  const MAXSIZE_HOSTNAME: nat := 25

  // strncmp over the host name buffers finds no difference.
  predicate SameHost(a: Host, b: Host) {
    Buffer(a) == Buffer(b)
  }

  function Buffer(h: Host): Host {
    Kept(h, MAXSIZE_HOSTNAME)
  }

  // The first 25 places decide, and names of up to 25 characters are the same exactly when
  // they are equal.
  lemma SameHostIff(a: Host, b: Host)
    ensures SameHost(a, b) <==> forall i: nat | i < 25 :: AgreeAt(a, b, i)
    ensures |a| <= 25 && |b| <= 25 ==> (SameHost(a, b) <==> a == b)
  {
    KeptIff(a, b, 25);
  }

  function FirstOn(hosts: seq<Host>, h: Host, from: nat): (q: nat)
    requires from <= |hosts|
    ensures from <= q <= |hosts|
    ensures q < |hosts| ==> SameHost(hosts[q], h)
    ensures forall p | from <= p < q :: !SameHost(hosts[p], h)
    decreases |hosts| - from
  {
    if from == |hosts| || SameHost(hosts[from], h) then from else FirstOn(hosts, h, from + 1)
  }

  // The smallest rank on r's host.
  function Root(hosts: seq<Host>, r: nat): (q: nat)
    requires r < |hosts|
    ensures q <= r && SameHost(hosts[q], hosts[r])
    ensures forall p | 0 <= p < q :: !SameHost(hosts[p], hosts[r])
  {
    FirstOn(hosts, hosts[r], 0)
  }

  predicate IsRoot(hosts: seq<Host>, r: nat)
    requires r < |hosts|
  {
    Root(hosts, r) == r
  }

  lemma SameRoot(hosts: seq<Host>, a: nat, b: nat)
    requires a < |hosts| && b < |hosts|
    ensures SameHost(hosts[a], hosts[b]) <==> Root(hosts, a) == Root(hosts, b)
    ensures IsRoot(hosts, Root(hosts, a))
  {
    var ra, rb := Root(hosts, a), Root(hosts, b);
    assert Root(hosts, ra) <= ra;
    if SameHost(hosts[a], hosts[b]) {
      assert ra <= rb && rb <= ra;
    }
  }

  // The ranks below i on r's host.
  ghost function OnHost(hosts: seq<Host>, r: nat, i: nat): set<nat>
    requires r < |hosts| && i <= |hosts|
  {
    set q: nat | q < i && SameHost(hosts[q], hosts[r])
  }

  ghost function Population(hosts: seq<Host>, r: nat): nat
    requires r < |hosts|
  {
    |OnHost(hosts, r, |hosts|)|
  }

  // The ranks whose name is the given one.
  ghost function Named(hosts: seq<Host>, h: Host): set<nat> {
    set q: nat | q < |hosts| && hosts[q] == h
  }

  ghost predicate NamesFit(hosts: seq<Host>) {
    forall r | 0 <= r < |hosts| :: |hosts[r]| <= 25
  }

  // With names that fit, the root is the first rank of the same name and the population the
  // number of such ranks.
  lemma RootByName(hosts: seq<Host>, r: nat)
    requires NamesFit(hosts) && r < |hosts|
    ensures hosts[Root(hosts, r)] == hosts[r] && forall q: nat | q < Root(hosts, r) :: hosts[q] != hosts[r]
    ensures Population(hosts, r) == |Named(hosts, hosts[r])|
    ensures forall x: nat | x < |hosts| :: Root(hosts, x) == Root(hosts, r) <==> hosts[x] == hosts[r]
  {
    hide SameHost, Root, IsRoot;
    SameHostIff(hosts[Root(hosts, r)], hosts[r]);
    forall q: nat | q < |hosts|
      ensures SameHost(hosts[q], hosts[r]) <==> hosts[q] == hosts[r]
      ensures Root(hosts, q) == Root(hosts, r) <==> hosts[q] == hosts[r]
    {
      SameHostIff(hosts[q], hosts[r]);
      SameRoot(hosts, q, r);
    }
    assert OnHost(hosts, r, |hosts|) == Named(hosts, hosts[r]);
  }

  // ---- the host table -----------------------------------------------------------------

  // hlist, local_roots and local_sizes up to job.nhosts.
  datatype HostTab = HostTab(names: seq<Host>, roots: seq<nat>, sizes: seq<nat>)

  function Find(names: seq<Host>, h: Host): nat {
    FirstOn(names, h, 0)
  }

  // What receiving host name h from rank i does to the table.
  function Enlist(tab: HostTab, i: nat, h: Host): HostTab
    requires |tab.names| == |tab.roots| == |tab.sizes|
  {
    var j := Find(tab.names, h);
    if j < |tab.names| then tab.(sizes := tab.sizes[j := tab.sizes[j] + 1])
    else HostTab(tab.names + [h], tab.roots + [i], tab.sizes + [1])
  }

  // The table describes the ranks below i.
  ghost predicate Describes(tab: HostTab, hosts: seq<Host>, i: nat)
    requires i <= |hosts|
  {
    && |tab.names| == |tab.roots| == |tab.sizes|
    && (forall k | 0 <= k < |tab.roots| ::
          tab.roots[k] < i && IsRoot(hosts, tab.roots[k]) && tab.names[k] == hosts[tab.roots[k]]
          && tab.sizes[k] == |OnHost(hosts, tab.roots[k], i)|)
    && (forall k, l | 0 <= k < l < |tab.roots| :: tab.roots[k] < tab.roots[l])
    && (forall q: nat | q < i :: Root(hosts, q) in tab.roots)
  }

  lemma DescribesFirst(hosts: seq<Host>)
    requires |hosts| > 0
    ensures Describes(HostTab([hosts[0]], [0], [1]), hosts, 1)
  {
    assert OnHost(hosts, 0, 1) == {0};
  }

  // The table after the names of the ranks below i have been received in rank order.
  function TabOf(hosts: seq<Host>, i: nat): (tab: HostTab)
    requires 1 <= i <= |hosts|
    ensures |tab.names| == |tab.roots| == |tab.sizes|
  {
    if i == 1 then HostTab([hosts[0]], [0], [1]) else Enlist(TabOf(hosts, i - 1), i - 1, hosts[i - 1])
  }

  lemma {:induction false} TabDescribes(hosts: seq<Host>, i: nat)
    requires 1 <= i <= |hosts|
    ensures Describes(TabOf(hosts, i), hosts, i)
  {
    hide Describes, Enlist;
    if i == 1 {
      DescribesFirst(hosts);
    } else {
      TabDescribes(hosts, i - 1);
      EnlistDescribes(TabOf(hosts, i - 1), hosts, i - 1);
    }
  }

  // Enlisting the next rank keeps the description, and the row it lands in is its host's.
  lemma EnlistDescribes(tab: HostTab, hosts: seq<Host>, i: nat)
    requires i < |hosts| && Describes(tab, hosts, i)
    ensures Describes(Enlist(tab, i, hosts[i]), hosts, i + 1)
    ensures var j := Find(tab.names, hosts[i]);
      j < |Enlist(tab, i, hosts[i]).roots| && Enlist(tab, i, hosts[i]).roots[j] == Root(hosts, i)
  {
    if Find(tab.names, hosts[i]) < |tab.names| {
      EnlistKnown(tab, hosts, i);
    } else {
      EnlistNew(tab, hosts, i);
    }
  }

  lemma EnlistKnown(tab: HostTab, hosts: seq<Host>, i: nat)
    requires i < |hosts| && Describes(tab, hosts, i) && Find(tab.names, hosts[i]) < |tab.names|
    ensures Describes(Enlist(tab, i, hosts[i]), hosts, i + 1)
    ensures tab.roots[Find(tab.names, hosts[i])] == Root(hosts, i)
  {
    hide SameHost, Root, IsRoot, OnHost, Find;
    var j := Find(tab.names, hosts[i]);
    KnownRoot(tab, hosts, i);
    KnownCovers(tab, hosts, i);
    forall k | 0 <= k < |tab.roots|
      ensures |OnHost(hosts, tab.roots[k], i + 1)| == tab.sizes[k] + (if k == j then 1 else 0)
    {
      RowGrows(tab, hosts, i, k);
    }
  }

  lemma KnownRoot(tab: HostTab, hosts: seq<Host>, i: nat)
    requires i < |hosts| && Describes(tab, hosts, i) && Find(tab.names, hosts[i]) < |tab.names|
    ensures tab.roots[Find(tab.names, hosts[i])] == Root(hosts, i)
  {
    hide SameHost, OnHost;
    SameRoot(hosts, i, tab.roots[Find(tab.names, hosts[i])]);
  }

  lemma KnownCovers(tab: HostTab, hosts: seq<Host>, i: nat)
    requires i < |hosts| && Describes(tab, hosts, i) && Root(hosts, i) in tab.roots
    ensures forall q: nat | q < i + 1 :: Root(hosts, q) in tab.roots
  {
    hide SameHost, Root, IsRoot, OnHost;
  }

  // Row k grows by the next rank when that is its host, which only one row is.
  lemma RowGrows(tab: HostTab, hosts: seq<Host>, i: nat, k: nat)
    requires i < |hosts| && Describes(tab, hosts, i) && k < |tab.roots|
    ensures |OnHost(hosts, tab.roots[k], i + 1)|
         == tab.sizes[k] + (if k == Find(tab.names, hosts[i]) then 1 else 0)
  {
    var j := Find(tab.names, hosts[i]);
    OneMoreRank(hosts, tab.roots[k], i);
    SameRoot(hosts, i, tab.roots[k]);
    if j < |tab.names| {
      SameRoot(hosts, i, tab.roots[j]);
    }
  }

  lemma EnlistNew(tab: HostTab, hosts: seq<Host>, i: nat)
    requires i < |hosts| && Describes(tab, hosts, i) && Find(tab.names, hosts[i]) == |tab.names|
    ensures Describes(Enlist(tab, i, hosts[i]), hosts, i + 1)
    ensures Root(hosts, i) == i
  {
    hide SameHost, Root, IsRoot, OnHost, Find;
    RootIsNew(tab, hosts, i);
    NewCovers(tab, hosts, i);
    var t := Enlist(tab, i, hosts[i]);
    forall k: nat | k < |t.roots|
      ensures t.roots[k] < i + 1 && IsRoot(hosts, t.roots[k]) && t.names[k] == hosts[t.roots[k]]
      ensures t.sizes[k] == |OnHost(hosts, t.roots[k], i + 1)|
    {
      NewRow(tab, hosts, i, k);
    }
  }

  lemma NewRow(tab: HostTab, hosts: seq<Host>, i: nat, k: nat)
    requires i < |hosts| && Describes(tab, hosts, i) && Find(tab.names, hosts[i]) == |tab.names|
    requires Root(hosts, i) == i && k <= |tab.roots|
    ensures var t := Enlist(tab, i, hosts[i]);
      && t.roots[k] < i + 1 && IsRoot(hosts, t.roots[k]) && t.names[k] == hosts[t.roots[k]]
      && t.sizes[k] == |OnHost(hosts, t.roots[k], i + 1)|
  {
    hide SameHost, Root, OnHost, Find;
    if k < |tab.roots| {
      RowGrows(tab, hosts, i, k);
    } else {
      NobodyYet(hosts, i);
    }
  }

  lemma NewCovers(tab: HostTab, hosts: seq<Host>, i: nat)
    requires i < |hosts| && Describes(tab, hosts, i) && Root(hosts, i) == i
    ensures forall q: nat | q < i + 1 :: Root(hosts, q) in tab.roots + [i]
  {
    hide SameHost, Root, IsRoot, OnHost;
  }

  lemma OneMoreRank(hosts: seq<Host>, r: nat, i: nat)
    requires r < |hosts| && i < |hosts|
    ensures |OnHost(hosts, r, i + 1)| == |OnHost(hosts, r, i)| + (if SameHost(hosts[i], hosts[r]) then 1 else 0)
  {
    hide SameHost;
    var old', new' := OnHost(hosts, r, i), OnHost(hosts, r, i + 1);
    if SameHost(hosts[i], hosts[r]) {
      GrowsByOne(old', new', i);
    } else {
      assert new' == old';
    }
  }

  lemma GrowsByOne(s: set<nat>, t: set<nat>, i: nat)
    requires i !in s && forall q: nat :: q in t <==> q in s || q == i
    ensures |t| == |s| + 1
  {
    assert t == s + {i};
  }

  lemma RootIsNew(tab: HostTab, hosts: seq<Host>, i: nat)
    requires i < |hosts| && Describes(tab, hosts, i)
    requires Find(tab.names, hosts[i]) == |tab.names|
    ensures Root(hosts, i) == i
  {
    var q := Root(hosts, i);
    SameRoot(hosts, q, i);
    if q < i {
      KnownHost(tab, hosts, i, q);
    }
  }

  lemma KnownHost(tab: HostTab, hosts: seq<Host>, i: nat, q: nat)
    requires i < |hosts| && Describes(tab, hosts, i) && q < i && Root(hosts, q) == q
    ensures exists k :: 0 <= k < |tab.names| && tab.names[k] == hosts[q]
  {
    assert Root(hosts, q) in tab.roots;
    var k :| 0 <= k < |tab.roots| && tab.roots[k] == q;
    assert tab.names[k] == hosts[q];
  }

  lemma NobodyYet(hosts: seq<Host>, i: nat)
    requires i < |hosts| && Root(hosts, i) == i
    ensures |OnHost(hosts, i, i + 1)| == 1
  {
    assert OnHost(hosts, i, i + 1) == {i};
  }
}
