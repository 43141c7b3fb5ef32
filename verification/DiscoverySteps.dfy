// Every step of host discovery keeps the invariant.
module DiscoverySteps {
  import opened Finite
  import opened Topology
  import opened Messages
  import opened HostDiscovery
  import opened DiscoveryInvariant

  // ---- static facts ---------------------------------------------------------------------

  ghost predicate RootRow(hosts: seq<Host>, k: nat, b: nat)
    requires |hosts| > 0
  {
    && k < |Roots(hosts)| && Roots(hosts)[k] == b && Index(Roots(hosts), b) == k
    && k < |TabOf(hosts, |hosts|).sizes|
    && b < |hosts| && IsRoot(hosts, b) && TabOf(hosts, |hosts|).sizes[k] == Population(hosts, b)
  }

  lemma RowOfIndex(hosts: seq<Host>, k: nat)
    requires |hosts| > 0 && k < |Roots(hosts)|
    ensures RootRow(hosts, k, Roots(hosts)[k])
  {
    TabDescribes(hosts, |hosts|);
    IndexOf(Roots(hosts), k);
  }

  lemma RowOfRoot(hosts: seq<Host>, b: nat)
    requires b < |hosts| && IsRoot(hosts, b)
    ensures RootRow(hosts, Index(Roots(hosts), b), b)
    ensures Index(Roots(hosts), b) == 0 <==> b == 0
  {
    TabDescribes(hosts, |hosts|);
    assert Root(hosts, b) in Roots(hosts);
    RowOfIndex(hosts, Index(Roots(hosts), b));
    RootZero(hosts);
  }

  lemma RootZero(hosts: seq<Host>)
    requires |hosts| > 0
    ensures Root(hosts, 0) == 0 && RootRow(hosts, 0, 0)
  {
    TabDescribes(hosts, |hosts|);
    assert Root(hosts, 0) in Roots(hosts);
    var k :| 0 <= k < |Roots(hosts)| && Roots(hosts)[k] == 0;
    assert Roots(hosts)[0] <= Roots(hosts)[k];
    RowOfIndex(hosts, 0);
  }

  lemma RootIdempotent(hosts: seq<Host>, b: nat)
    requires b < |hosts|
    ensures IsRoot(hosts, Root(hosts, b))
  {
    SameRoot(hosts, b, b);
  }

  // The ranks of root r's host.
  ghost function Members(hosts: seq<Host>, r: nat): (m: set<nat>)
    requires r < |hosts| && IsRoot(hosts, r)
    ensures |m| == Population(hosts, r)
    ensures forall x: nat :: x in m <==> x < |hosts| && Root(hosts, x) == r
  {
    MembersAre(hosts, r);
    OnHost(hosts, r, |hosts|)
  }

  lemma MembersAre(hosts: seq<Host>, r: nat)
    requires r < |hosts| && IsRoot(hosts, r)
    ensures forall x: nat :: x in OnHost(hosts, r, |hosts|) <==> x < |hosts| && Root(hosts, x) == r
  {
    forall x: nat | x < |hosts|
      ensures SameHost(hosts[x], hosts[r]) <==> Root(hosts, x) == r
    {
      SameRoot(hosts, x, r);
    }
  }

  // A list of a host's ranks is complete exactly when it is as long as the host is large.
  lemma RanksCount(hosts: seq<Host>, r: nat, ranks: seq<nat>)
    requires r < |hosts| && IsRoot(hosts, r) && RanksOk(hosts, r, ranks)
    ensures |ranks| <= Population(hosts, r)
    ensures |ranks| == Population(hosts, r) <==> forall x: nat | x < |hosts| && Root(hosts, x) == r :: x in ranks
  {
    DistinctSize(ranks);
    forall x | x in Elements(ranks)
      ensures x in Members(hosts, r)
    {
      assert x in ranks;
    }
    SubsetSize(Elements(ranks), Members(hosts, r));
    if forall x: nat | x < |hosts| && Root(hosts, x) == r :: x in ranks {
      assert Elements(ranks) == Members(hosts, r);
    }
  }

  // ---- what starting to collect does ------------------------------------------------------

  // A root that has learnt its neighbours and lists only itself.
  lemma StartCollectOk(hosts: seq<Host>, r: nat, p: Proc, heap: int)
    requires r < |hosts| && IsRoot(hosts, r) && p.intraRoot == r && p.intraSize == Population(hosts, r)
    requires p.interLeft == RootLeft(hosts, r) && p.interRight == RootRight(hosts, r)
    ensures var p' := StartCollect(r, p, heap);
      && RootOk(hosts, r, p') && (p'.pc.Collect? || p'.pc.Done?) && p'.tab == p.tab && p'.ranks == [r]
      && (p'.pc.Done? ==> forall b: nat | b < |hosts| && b != r :: Root(hosts, b) != r)
  {
    RanksCount(hosts, r, [r]);
  }

  // ---- sends ----------------------------------------------------------------------------

  lemma SendNameOk(hosts: seq<Host>, r: nat, p: Proc, heap: int)
    requires |hosts| >= 2 && r < |hosts| && LocalOk(hosts, r, p) && p.pc.SendName?
    ensures LocalOk(hosts, r, AfterSend(hosts, r, p, heap))
    ensures SendFacts(hosts, r, p, AfterSend(hosts, r, p, heap), 0, Msg(r, Text(hosts[r])))
  {
    hide TabOf, Root, TopoMsgs;
    RootIdempotent(hosts, r);
  }

  lemma ReplyRootOk(hosts: seq<Host>, p: Proc, heap: int)
    requires |hosts| >= 2 && LocalOk(hosts, 0, p) && p.pc.ReplyRoot?
    ensures LocalOk(hosts, 0, AfterSend(hosts, 0, p, heap))
    ensures SendFacts(hosts, 0, p, AfterSend(hosts, 0, p, heap), p.pc.i, Msg(0, Number(At(p.tab.roots, p.pc.j))))
  {
    hide TabOf, Root, Population, RootLeft, RootRight, StartCollect, SentTo;
    RootZero(hosts);
    SettleOk(hosts, p, heap);
    forall b | 0 <= b < |hosts|
      ensures SentTo(hosts, 0, p, AfterSend(hosts, 0, p, heap), p.pc.i, b)
    {
      ReplyRootTo(hosts, p, AfterSend(hosts, 0, p, heap), heap, b);
    }
  }

  // What rank 0 and rank b tell each other, by the kind of rank b is.
  lemma TellsRoot(hosts: seq<Host>, p: Proc, b: nat)
    requires 0 < b < |hosts| && IsRoot(hosts, b)
    ensures Script(hosts, 0, b, p) == [Msg(0, Number(b))] + TopoMsgs(hosts, b)
    ensures |Script(hosts, 0, b, p)| == 4
    ensures Sent(hosts, 0, b, p) == Replied(p, b) + TopoSent(hosts, p, b)
    ensures Got(hosts, b, 0, p) == NameGot(p, b)
    ensures Index(Roots(hosts), b) >= 1
  {
    hide TabOf, Root, RingMsgs, TopoSent, Replied, NameGot, TopoMsg;
    RowOfRoot(hosts, b);
  }

  lemma TellsLocal(hosts: seq<Host>, p: Proc, b: nat)
    requires 0 < b < |hosts| && Root(hosts, b) == 0
    ensures Script(hosts, 0, b, p) == [Msg(0, Number(0))] + RingMsgs(p, b)
    ensures Sent(hosts, 0, b, p) == Replied(p, b) + RingSent(p, b)
    ensures Got(hosts, b, 0, p) == NameGot(p, b) + RankGot(p, b)
  {
    hide TabOf, Root, RingMsgs, RingSent, Replied, NameGot;
  }

  lemma TellsOther(hosts: seq<Host>, p: Proc, b: nat)
    requires 0 < b < |hosts| && Root(hosts, b) != 0 && !IsRoot(hosts, b)
    ensures Script(hosts, 0, b, p) == [Msg(0, Number(Root(hosts, b)))]
    ensures Sent(hosts, 0, b, p) == Replied(p, b)
    ensures Got(hosts, b, 0, p) == NameGot(p, b)
  {
    hide TabOf, Root, RingMsgs, Replied, NameGot;
  }

  // One more of rank 0's scripts is a message longer; p' is rank 0 after the reply.
  lemma ReplyToRoot(hosts: seq<Host>, p: Proc, p': Proc, b: nat)
    requires |hosts| >= 2 && p.pc.ReplyRoot? && 0 < b < |hosts| && IsRoot(hosts, b)
    requires 1 <= p.pc.i < |hosts|
    requires p'.pc == GatherName(p.pc.i + 1) || (p.pc.i + 1 == |hosts| && p'.pc == SendTopo(1, 0))
    ensures SentTo(hosts, 0, p, p', p.pc.i, b)
  {
    hide TabOf, Root, Script, Sent, Got, Index, RingMsgs, TopoMsgs;
    TellsRoot(hosts, p, b);
    TellsRoot(hosts, p', b);
  }

  lemma ReplyToLocal(hosts: seq<Host>, p: Proc, p': Proc, b: nat)
    requires |hosts| >= 2 && p.pc.ReplyRoot? && 0 < b < |hosts| && Root(hosts, b) == 0
    requires 1 <= p.pc.i < |hosts|
    requires p'.pc == GatherName(p.pc.i + 1) || (p.pc.i + 1 == |hosts| && (p'.pc == SendTopo(1, 0) || p'.pc == Collect))
    requires p'.pc == Collect ==> b !in p'.ranks
    ensures SentTo(hosts, 0, p, p', p.pc.i, b)
  {
    hide TabOf, Root, Script, Sent, Got, Index;
    TellsLocal(hosts, p, b);
    TellsLocal(hosts, p', b);
  }

  lemma ReplyToOther(hosts: seq<Host>, p: Proc, p': Proc, b: nat)
    requires |hosts| >= 2 && p.pc.ReplyRoot? && 0 < b < |hosts| && Root(hosts, b) != 0 && !IsRoot(hosts, b)
    requires 1 <= p.pc.i < |hosts|
    requires p'.pc == GatherName(p.pc.i + 1)
          || (p.pc.i + 1 == |hosts| && (p'.pc == SendTopo(1, 0) || p'.pc.Collect? || p'.pc.Done?))
    ensures SentTo(hosts, 0, p, p', p.pc.i, b)
  {
    hide TabOf, Root, Script, Sent, Got, Index;
    TellsOther(hosts, p, b);
    TellsOther(hosts, p', b);
  }

  lemma AfterReply(hosts: seq<Host>, p: Proc, heap: int)
    requires p.pc.ReplyRoot?
    ensures AfterSend(hosts, 0, p, heap)
      == if p.pc.i + 1 < |hosts| then p.(pc := GatherName(p.pc.i + 1))
         else if 1 < |p.tab.roots| then p.(pc := SendTopo(1, 0))
         else Settle(p, heap)
  {
    hide Settle, StartCollect, CloseRing, RingMsg;
  }

  lemma ReplyNext(hosts: seq<Host>, p: Proc, p': Proc, heap: int)
    requires |hosts| >= 2 && p.pc.ReplyRoot? && p.intraRoot == 0
    requires 1 <= p.pc.i < |hosts| && (p.pc.i + 1 == |hosts| ==> p.tab == TabOf(hosts, |hosts|)) && p.tab.roots != []
    requires p' == AfterSend(hosts, 0, p, heap)
    ensures p'.pc == GatherName(p.pc.i + 1)
         || (p.pc.i + 1 == |hosts| && (p'.pc == SendTopo(1, 0)
             || ((p'.pc == Collect || p'.pc == Done) && Settled(hosts, p, p') && |p.tab.roots| <= 1)))
  {
    hide *;
    AfterReply(hosts, p, heap);
    SettleOk(hosts, p, heap);
    SettledPc(hosts, p, Settle(p, heap));
  }

  lemma SettledPc(hosts: seq<Host>, p: Proc, p': Proc)
    ensures Settled(hosts, p, p') ==> (p'.pc == Collect || p'.pc == Done)
  {
    hide LocalOk;
  }

  lemma ReplyRootTo(hosts: seq<Host>, p: Proc, p': Proc, heap: int, b: nat)
    requires |hosts| >= 2 && p.pc.ReplyRoot? && b < |hosts| && p.intraRoot == 0
    requires 1 <= p.pc.i < |hosts| && (p.pc.i + 1 == |hosts| ==> p.tab == TabOf(hosts, |hosts|)) && p.tab.roots != []
    requires p' == AfterSend(hosts, 0, p, heap)
    ensures SentTo(hosts, 0, p, p', p.pc.i, b)
  {
    hide TabOf, Root, AfterSend, LocalOk, SentTo;
    ReplyNext(hosts, p, p', heap);
    if b == 0 {
      NoneToSelf(hosts, 0, p, p', p.pc.i);
    } else if IsRoot(hosts, b) {
      ReplyToRoot(hosts, p, p', b);
    } else if Root(hosts, b) == 0 {
      ReplyToLocal(hosts, p, p', b);
    } else {
      ReplyToOther(hosts, p, p', b);
    }
  }

  lemma NoneToSelf(hosts: seq<Host>, r: nat, p: Proc, p': Proc, d: nat)
    requires r < |hosts| && d != r
    ensures SentTo(hosts, r, p, p', d, r) && ReceivedFrom(hosts, r, p, p', d, r)
  {
  }

  lemma SettleOk(hosts: seq<Host>, p: Proc, heap: int)
    requires |hosts| >= 2 && p.intraRoot == 0 && p.tab.roots != []
    ensures p.tab == TabOf(hosts, |hosts|) ==> Settled(hosts, p, Settle(p, heap))
  {
    if p.tab == TabOf(hosts, |hosts|) {
      SettledOk(hosts, p, heap);
    }
  }

  ghost predicate Settled(hosts: seq<Host>, p: Proc, p': Proc) {
    && |hosts| >= 2 && LocalOk(hosts, 0, p')
    && (p'.pc.Collect? || p'.pc.Done?) && p'.ranks == [0]
    && (p'.pc.Done? ==> forall b: nat | b < |hosts| && b != 0 :: Root(hosts, b) != 0)
    && (|p.tab.roots| <= 1 ==> forall b: nat | 0 < b < |hosts| :: !IsRoot(hosts, b))
  }

  lemma SettledOk(hosts: seq<Host>, p: Proc, heap: int)
    requires |hosts| >= 2 && p.tab == TabOf(hosts, |hosts|) && p.intraRoot == 0
    ensures Settled(hosts, p, Settle(p, heap))
  {
    hide TabOf, Root, Population;
    RootZero(hosts);
    StartCollectOk(hosts, 0, p.(intraSize := At(p.tab.sizes, 0), interLeft := LeftOf(p.tab.roots, 0),
                                interRight := At(p.tab.roots, 1)), heap);
    forall b: nat | 0 < b < |hosts| && IsRoot(hosts, b)
      ensures |p.tab.roots| > 1
    {
      RowOfRoot(hosts, b);
    }
  }

  lemma SendTopoOk(hosts: seq<Host>, p: Proc, heap: int)
    requires |hosts| >= 2 && LocalOk(hosts, 0, p) && p.pc.SendTopo?
    ensures LocalOk(hosts, 0, AfterSend(hosts, 0, p, heap))
    ensures SendFacts(hosts, 0, p, AfterSend(hosts, 0, p, heap), Nat(At(p.tab.roots, p.pc.j)),
                      TopoMsg(p.tab, p.pc.j, p.pc.m))
  {
    hide TabOf, Root, Population, RootLeft, RootRight, TopoMsg, StartCollect, SentTo;
    RootZero(hosts);
    RowOfIndex(hosts, p.pc.j);
    SettleOk(hosts, p, heap);
    forall b | 0 <= b < |hosts|
      ensures SentTo(hosts, 0, p, AfterSend(hosts, 0, p, heap), p.tab.roots[p.pc.j], b)
    {
      SendTopoTo(hosts, p, AfterSend(hosts, 0, p, heap), heap, b);
    }
  }

  lemma TopoToRoot(hosts: seq<Host>, p: Proc, p': Proc, k: nat)
    requires |hosts| >= 2 && p.pc.SendTopo? && p.pc.m < 3 && 0 < k < |Roots(hosts)|
    requires if p.pc.m < 2 then p'.pc == SendTopo(p.pc.j, p.pc.m + 1)
             else p'.pc == SendTopo(p.pc.j + 1, 0)
                  || (p.pc.j + 1 == |Roots(hosts)| && (p'.pc.Collect? || p'.pc.Done?))
    ensures Roots(hosts)[k] < |hosts|
    ensures SentTo(hosts, 0, p, p', if k == p.pc.j then Roots(hosts)[k] else |hosts|, Roots(hosts)[k])
  {
    hide TabOf, Root, Script, Sent, Got, Index, RingMsgs, TopoMsgs;
    var b := Roots(hosts)[k];
    RowOfIndex(hosts, k);
    RowOfRoot(hosts, b);
    TellsRoot(hosts, p, b);
    TellsRoot(hosts, p', b);
  }

  lemma TopoToLocal(hosts: seq<Host>, p: Proc, p': Proc, d: nat, b: nat)
    requires |hosts| >= 2 && p.pc.SendTopo? && 0 < b < |hosts| && Root(hosts, b) == 0 && d != b
    requires p'.pc.SendTopo? || p'.pc == Collect
    requires p'.pc == Collect ==> b !in p'.ranks
    ensures SentTo(hosts, 0, p, p', d, b)
  {
    hide TabOf, Root, Script, Sent, Got, Index;
    TellsLocal(hosts, p, b);
    TellsLocal(hosts, p', b);
  }

  lemma TopoToOther(hosts: seq<Host>, p: Proc, p': Proc, d: nat, b: nat)
    requires |hosts| >= 2 && p.pc.SendTopo? && 0 < b < |hosts| && Root(hosts, b) != 0 && !IsRoot(hosts, b) && d != b
    requires p'.pc.SendTopo? || p'.pc.Collect? || p'.pc.Done?
    ensures SentTo(hosts, 0, p, p', d, b)
  {
    hide TabOf, Root, Script, Sent, Got, Index;
    TellsOther(hosts, p, b);
    TellsOther(hosts, p', b);
  }

  lemma AfterTopo(hosts: seq<Host>, p: Proc, heap: int)
    requires p.pc.SendTopo?
    ensures AfterSend(hosts, 0, p, heap)
      == if p.pc.m < 2 then p.(pc := SendTopo(p.pc.j, p.pc.m + 1))
         else if p.pc.j + 1 < |p.tab.roots| then p.(pc := SendTopo(p.pc.j + 1, 0))
         else Settle(p, heap)
  {
    hide Settle, StartCollect, CloseRing, RingMsg;
  }

  lemma TopoNext(hosts: seq<Host>, p: Proc, p': Proc, heap: int)
    requires |hosts| >= 2 && p.pc.SendTopo? && p.intraRoot == 0
    requires p.tab == TabOf(hosts, |hosts|) && 1 <= p.pc.j < |p.tab.roots| && p.pc.m < 3
    requires p' == AfterSend(hosts, 0, p, heap)
    ensures if p.pc.m < 2 then p'.pc == SendTopo(p.pc.j, p.pc.m + 1)
            else (p'.pc == SendTopo(p.pc.j + 1, 0)
                  || (p.pc.j + 1 == |p.tab.roots| && (p'.pc == Collect || p'.pc == Done) && Settled(hosts, p, p')))
  {
    hide *;
    AfterTopo(hosts, p, heap);
    SettleOk(hosts, p, heap);
    SettledPc(hosts, p, Settle(p, heap));
  }

  lemma SendTopoTo(hosts: seq<Host>, p: Proc, p': Proc, heap: int, b: nat)
    requires |hosts| >= 2 && p.pc.SendTopo? && b < |hosts| && p.intraRoot == 0
    requires p.tab == TabOf(hosts, |hosts|) && 1 <= p.pc.j < |p.tab.roots| && p.pc.m < 3
    requires p' == AfterSend(hosts, 0, p, heap)
    ensures SentTo(hosts, 0, p, p', p.tab.roots[p.pc.j], b)
  {
    hide TabOf, Root, AfterSend, LocalOk, SentTo, Index;
    var d := p.tab.roots[p.pc.j];
    TopoNext(hosts, p, p', heap);
    RowOfIndex(hosts, p.pc.j);
    RootZero(hosts);
    if b == 0 {
      NoneToSelf(hosts, 0, p, p', d);
    } else if IsRoot(hosts, b) {
      RowOfRoot(hosts, b);
      var k := Index(Roots(hosts), b);
      TopoToRoot(hosts, p, p', k);
      SameTo(hosts, p, p', if k == p.pc.j then b else |hosts|, d, b);
    } else if Root(hosts, b) == 0 {
      TopoToLocal(hosts, p, p', d, b);
    } else {
      TopoToOther(hosts, p, p', d, b);
    }
  }

  lemma SameTo(hosts: seq<Host>, p: Proc, p': Proc, d: nat, e: nat, b: nat)
    requires 0 < |hosts| && b < |hosts| && SentTo(hosts, 0, p, p', d, b) && (d == b <==> e == b)
    ensures SentTo(hosts, 0, p, p', e, b)
  {
    hide Script, Sent, Got;
  }

  lemma SendRankOk(hosts: seq<Host>, r: nat, p: Proc, heap: int)
    requires |hosts| >= 2 && r < |hosts| && LocalOk(hosts, r, p) && p.pc.SendRank?
    ensures LocalOk(hosts, r, AfterSend(hosts, r, p, heap))
    ensures SendFacts(hosts, r, p, AfterSend(hosts, r, p, heap), Root(hosts, r), Msg(0, Number(r)))
  {
    hide TabOf, Root, TopoMsgs, SentTo;
    RootIdempotent(hosts, r);
    RootZero(hosts);
    forall b | 0 <= b < |hosts|
      ensures SentTo(hosts, r, p, AfterSend(hosts, r, p, heap), Root(hosts, r), b)
    {
      SendRankTo(hosts, r, p, AfterSend(hosts, r, p, heap), b);
    }
  }

  lemma SendRankTo(hosts: seq<Host>, r: nat, p: Proc, p': Proc, b: nat)
    requires |hosts| >= 2 && r < |hosts| && b < |hosts| && !IsRoot(hosts, r)
    requires p.pc.SendRank? && p' == p.(pc := RecvRing(0))
    ensures SentTo(hosts, r, p, p', Root(hosts, r), b)
  {
    hide TabOf, Root, TopoMsgs, RingMsgs, RingSent, TopoSent, IsRoot, Ringing;
    RootIdempotent(hosts, r);
    RootZero(hosts);
    assert Script(hosts, r, b, p) == Script(hosts, r, b, p');
    assert Got(hosts, b, r, p') == Got(hosts, b, r, p);
  }

  lemma SendRingOk(hosts: seq<Host>, r: nat, p: Proc, heap: int)
    requires |hosts| >= 2 && r < |hosts| && LocalOk(hosts, r, p) && p.pc.SendRing?
    ensures LocalOk(hosts, r, AfterSend(hosts, r, p, heap))
    ensures SendFacts(hosts, r, p, AfterSend(hosts, r, p, heap), Nat(At(p.ranks, p.pc.j)), RingMsg(p, p.pc.j, p.pc.m))
  {
    hide TabOf, Root, Population, RootLeft, RootRight, TopoMsgs, SentTo, RingMsg, Script, Sent;
    RootZero(hosts);
    IndexOf(p.ranks, p.pc.j);
    forall b | 0 <= b < |hosts|
      ensures SentTo(hosts, r, p, AfterSend(hosts, r, p, heap), p.ranks[p.pc.j], b)
    {
      SendRingTo(hosts, r, p, heap, b);
    }
    SendRingMsg(hosts, r, p, heap);
  }

  lemma SendRingMsg(hosts: seq<Host>, r: nat, p: Proc, heap: int)
    requires |hosts| >= 2 && r < |hosts| && p.pc.SendRing? && RootOk(hosts, r, p)
    ensures var d, p' := p.ranks[p.pc.j], AfterSend(hosts, r, p, heap);
      && d < |hosts| && Sent(hosts, r, d, p) < |Script(hosts, r, d, p')|
      && Script(hosts, r, d, p')[Sent(hosts, r, d, p)] == RingMsg(p, p.pc.j, p.pc.m)
  {
    hide TabOf, Root, Population, RootLeft, RootRight, TopoMsgs;
    IndexOf(p.ranks, p.pc.j);
    assert p.ranks[p.pc.j] in p.ranks;
  }

  lemma SendRingTo(hosts: seq<Host>, r: nat, p: Proc, heap: int, b: nat)
    requires |hosts| >= 2 && r < |hosts| && p.pc.SendRing? && b < |hosts| && RootOk(hosts, r, p)
    ensures SentTo(hosts, r, p, AfterSend(hosts, r, p, heap), p.ranks[p.pc.j], b)
  {
    hide TabOf, Root, AfterSend, SentTo, RingMsgs;
    var p' := AfterSend(hosts, r, p, heap);
    RingPlace(hosts, r, p, b);
    SameRing(hosts, r, p, heap, b);
    RootZero(hosts);
    if b == r {
      NoneToSelf(hosts, r, p, p', p.ranks[p.pc.j]);
    } else if Root(hosts, b) == r {
      RingToLocal(hosts, r, p, p', p.ranks[p.pc.j], b);
    } else {
      RingToOther(hosts, r, p, p', p.ranks[p.pc.j], b);
    }
  }

  // What root r and rank b of its host tell each other.
  lemma RootTellsLocal(hosts: seq<Host>, r: nat, p: Proc, b: nat)
    requires 0 < r < |hosts| && b < |hosts| && b != r && IsRoot(hosts, r) && Root(hosts, b) == r
    ensures Script(hosts, r, b, p) == RingMsgs(p, b)
    ensures Sent(hosts, r, b, p) == RingSent(p, b)
    ensures Got(hosts, b, r, p) == RankGot(p, b)
  {
    hide TabOf, Root, RingMsgs, RingSent, RankGot;
    RootZero(hosts);
  }

  // What root r and a rank b of another host tell each other.
  lemma RootTellsOther(hosts: seq<Host>, r: nat, p: Proc, b: nat)
    requires 0 < r < |hosts| && b < |hosts| && IsRoot(hosts, r) && Root(hosts, b) != r
    ensures Script(hosts, r, b, p) == if b == 0 then [Msg(r, Text(hosts[r]))] else []
    ensures Sent(hosts, r, b, p) == if b == 0 && !p.pc.SendName? then 1 else 0
    ensures Got(hosts, b, r, p)
         == if b == 0 then (if p.pc.SendName? || p.pc.RecvRoot? then 0 else 1) + TopoGot(p) else 0
  {
    hide TabOf, Root, TopoGot;
    RootZero(hosts);
  }

  lemma RingToOther(hosts: seq<Host>, r: nat, p: Proc, p': Proc, d: nat, b: nat)
    requires |hosts| >= 2 && r < |hosts| && b < |hosts| && b != d && Root(hosts, b) != r && IsRoot(hosts, r)
    requires RingStep(p, p')
    ensures SentTo(hosts, r, p, p', d, b)
  {
    hide TabOf, Root, Script, Sent, Got, Index, RingMsg;
    RootZero(hosts);
    if r > 0 {
      RootTellsOther(hosts, r, p, b);
      RootTellsOther(hosts, r, p', b);
    } else if IsRoot(hosts, b) {
      TellsRoot(hosts, p, b);
      TellsRoot(hosts, p', b);
    } else {
      TellsOther(hosts, p, b);
      TellsOther(hosts, p', b);
    }
  }

  ghost predicate RingStep(p: Proc, p': Proc) {
    && p.pc.SendRing? && p.pc.m < 5 && p'.ranks == p.ranks && p.pc.j < |p.ranks|
    && if p.pc.m < 4 then p'.pc == SendRing(p.pc.j, p.pc.m + 1)
       else p'.pc == SendRing(p.pc.j + 1, 0) || (p'.pc == Done && p.pc.j + 1 == |p.ranks|)
  }

  lemma RingToLocal(hosts: seq<Host>, r: nat, p: Proc, p': Proc, d: nat, b: nat)
    requires |hosts| >= 2 && r < |hosts| && b < |hosts| && b != r && Root(hosts, b) == r && IsRoot(hosts, r)
    requires RingStep(p, p') && RingMsgs(p', b) == RingMsgs(p, b)
    requires Index(p.ranks, b) < |p.ranks| && (b == d <==> Index(p.ranks, b) == p.pc.j)
    ensures SentTo(hosts, r, p, p', d, b)
  {
    hide TabOf, Root, Script, Sent, Got, Index, RingMsg;
    RootZero(hosts);
    if r == 0 {
      TellsLocal(hosts, p, b);
      TellsLocal(hosts, p', b);
    } else {
      RootTellsLocal(hosts, r, p, b);
      RootTellsLocal(hosts, r, p', b);
    }
  }

  // Where rank b stands on a complete list.
  lemma RingPlace(hosts: seq<Host>, r: nat, p: Proc, b: nat)
    requires r < |hosts| && p.pc.SendRing? && b < |hosts| && RootOk(hosts, r, p)
    ensures Root(hosts, b) == r ==> Index(p.ranks, b) < |p.ranks|
    ensures Root(hosts, b) == r && b != r ==> Index(p.ranks, b) >= 1
    ensures b == p.ranks[p.pc.j] <==> Index(p.ranks, b) == p.pc.j
    ensures p.ranks[p.pc.j] < |hosts| && Root(hosts, p.ranks[p.pc.j]) == r && p.ranks[p.pc.j] != r
  {
    RanksCount(hosts, r, p.ranks);
    IndexOf(p.ranks, p.pc.j);
    assert p.ranks[p.pc.j] in p.ranks;
  }

  lemma SameRing(hosts: seq<Host>, r: nat, p: Proc, heap: int, b: nat)
    requires r < |hosts| && p.pc.SendRing? && RootOk(hosts, r, p)
    ensures var p' := AfterSend(hosts, r, p, heap);
      RingMsgs(p', b) == RingMsgs(p, b) && RingStep(p, p')
  {
    hide Root, Population, RootLeft, RootRight, RanksOk, Index;
  }
}
