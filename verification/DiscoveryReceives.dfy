// What a rank learns from each message of host discovery.
module DiscoveryReceives {
  import opened Topology
  import opened Messages
  import opened HostDiscovery
  import opened DiscoveryInvariant
  import opened DiscoverySteps

  // What a rank that is not a root and another rank tell each other.
  lemma LeafTells(hosts: seq<Host>, r: nat, p: Proc, b: nat)
    requires r < |hosts| && b < |hosts| && b != r && !IsRoot(hosts, r)
    ensures Script(hosts, r, b, p)
         == (if b == 0 then [Msg(r, Text(hosts[r]))] else [])
            + (if b == Root(hosts, r) then [Msg(0, Number(r))] else [])
    ensures Sent(hosts, r, b, p)
         == (if b == 0 && !p.pc.SendName? then 1 else 0) + (if b == Root(hosts, r) then RankSent(p) else 0)
    ensures Got(hosts, b, r, p)
         == (if b == 0 && !p.pc.SendName? && !p.pc.RecvRoot? then 1 else 0)
            + (if b == Root(hosts, r) then RingGot(p) else 0)
  {
    hide TabOf, Root, RankSent, RingGot;
    RootZero(hosts);
    RootIdempotent(hosts, r);
    RootIdempotent(hosts, b);
  }

  // ---- the answer to a host name ----------------------------------------------------------

  lemma RecvRootFrom(hosts: seq<Host>, r: nat, p: Proc, p': Proc, b: nat)
    requires 0 < r < |hosts| && b < |hosts| && p.pc.RecvRoot?
    requires p'.pc == if IsRoot(hosts, r) then RecvSize else SendRank
    ensures ReceivedFrom(hosts, r, p, p', 0, b)
  {
    hide TabOf, Root, Script, Sent, Got, Index;
    if b == r {
      NoneToSelf(hosts, r, p, p', 0);
    } else if !IsRoot(hosts, r) {
      LeafTells(hosts, r, p, b);
      LeafTells(hosts, r, p', b);
    } else if Root(hosts, b) == r {
      RootZero(hosts);
      RootTellsLocal(hosts, r, p, b);
      RootTellsLocal(hosts, r, p', b);
    } else {
      RootTellsOther(hosts, r, p, b);
      RootTellsOther(hosts, r, p', b);
    }
  }

  lemma RecvRootOk(hosts: seq<Host>, r: nat, p: Proc, msg: Msg, heap: int)
    requires 0 < r < |hosts| && p.pc.RecvRoot? && msg == Msg(0, Number(Root(hosts, r)))
    ensures var p' := AfterReceive(hosts, r, p, msg, heap);
      LocalOk(hosts, r, p') && ReceiveFacts(hosts, r, p, p', 0) && RingGot(p') == 0
  {
    hide TabOf, Root, ReceivedFrom;
    var p' := AfterReceive(hosts, r, p, msg, heap);
    forall b | 0 <= b < |hosts|
      ensures ReceivedFrom(hosts, r, p, p', 0, b)
    {
      RecvRootFrom(hosts, r, p, p', b);
    }
  }

  // ---- a host name ------------------------------------------------------------------------

  lemma GatherFrom(hosts: seq<Host>, p: Proc, p': Proc, i: nat, b: nat)
    requires |hosts| >= 2 && b < |hosts| && 1 <= i < |hosts| && p.pc == GatherName(i) && p'.pc.ReplyRoot?
    requires p'.pc.i == i
    ensures ReceivedFrom(hosts, 0, p, p', i, b)
  {
    hide TabOf, Root, Script, Sent, Got, Index;
    if b == 0 {
      NoneToSelf(hosts, 0, p, p', i);
    } else if IsRoot(hosts, b) {
      TellsRoot(hosts, p, b);
      TellsRoot(hosts, p', b);
    } else if Root(hosts, b) == 0 {
      TellsLocal(hosts, p, b);
      TellsLocal(hosts, p', b);
    } else {
      TellsOther(hosts, p, b);
      TellsOther(hosts, p', b);
    }
  }

  lemma AfterName(hosts: seq<Host>, p: Proc, i: nat, heap: int)
    requires 1 <= i < |hosts| && p.pc == GatherName(i) && p.tab == TabOf(hosts, i)
    ensures var p' := AfterReceive(hosts, 0, p, Msg(i, Text(hosts[i])), heap);
      && p'.pc.ReplyRoot? && p'.pc.i == i && p'.tab == TabOf(hosts, i + 1) && p'.intraRoot == p.intraRoot
      && p'.pc.j < |p'.tab.roots| && p'.tab.roots[p'.pc.j] == Root(hosts, i)
  {
    hide Enlist, Root;
    TabDescribes(hosts, i);
    EnlistDescribes(TabOf(hosts, i), hosts, i);
  }

  lemma GatherOk(hosts: seq<Host>, p: Proc, i: nat, heap: int)
    requires |hosts| >= 2 && LocalOk(hosts, 0, p) && p.pc == GatherName(i)
    ensures var p' := AfterReceive(hosts, 0, p, Msg(i, Text(hosts[i])), heap);
      LocalOk(hosts, 0, p') && ReceiveFacts(hosts, 0, p, p', i) && RingGot(p') == 0
  {
    hide TabOf, Root, ReceivedFrom, AfterReceive;
    var p' := AfterReceive(hosts, 0, p, Msg(i, Text(hosts[i])), heap);
    AfterName(hosts, p, i, heap);
    forall b | 0 <= b < |hosts|
      ensures ReceivedFrom(hosts, 0, p, p', i, b)
    {
      GatherFrom(hosts, p, p', i, b);
    }
  }

  // ---- a root's size and neighbours ---------------------------------------------------------

  ghost predicate TopoStep(p: Proc, p': Proc) {
    || (p.pc.RecvSize? && p'.pc.RecvLeft?)
    || (p.pc.RecvLeft? && p'.pc.RecvRight?)
    || (p.pc.RecvRight? && (p'.pc.Collect? || p'.pc.Done?))
  }

  lemma RecvTopoFrom(hosts: seq<Host>, r: nat, p: Proc, p': Proc, b: nat)
    requires 0 < r < |hosts| && b < |hosts| && IsRoot(hosts, r) && TopoStep(p, p')
    requires p'.pc.Collect? || p'.pc.Done? ==> p'.ranks == [r]
    requires p'.pc.Done? ==> forall x: nat | x < |hosts| && x != r :: Root(hosts, x) != r
    ensures ReceivedFrom(hosts, r, p, p', 0, b)
  {
    hide TabOf, Root, Script, Sent, Got, Index;
    RootZero(hosts);
    if b == r {
      NoneToSelf(hosts, r, p, p', 0);
    } else if Root(hosts, b) == r {
      RootTellsLocal(hosts, r, p, b);
      RootTellsLocal(hosts, r, p', b);
    } else {
      RootTellsOther(hosts, r, p, b);
      RootTellsOther(hosts, r, p', b);
    }
  }

  lemma TopoValues(hosts: seq<Host>, r: nat)
    requires 0 < r < |hosts| && IsRoot(hosts, r)
    ensures TopoMsgs(hosts, r)
         == [Msg(0, Number(Population(hosts, r))), Msg(0, Number(RootLeft(hosts, r))),
             Msg(0, Number(RootRight(hosts, r)))]
  {
    hide TabOf, Root, Index;
    RowOfRoot(hosts, r);
  }

  lemma AfterTopoMsg(hosts: seq<Host>, r: nat, p: Proc, msg: Msg, heap: int)
    requires 0 < r < |hosts| && LocalOk(hosts, r, p)
    requires || (p.pc.RecvSize? && msg == Msg(0, Number(Population(hosts, r))))
             || (p.pc.RecvLeft? && msg == Msg(0, Number(RootLeft(hosts, r))))
             || (p.pc.RecvRight? && msg == Msg(0, Number(RootRight(hosts, r))))
    ensures var p' := AfterReceive(hosts, r, p, msg, heap);
      && LocalOk(hosts, r, p') && TopoStep(p, p')
      && (p'.pc.Collect? || p'.pc.Done? ==> p'.ranks == [r])
      && (p'.pc.Done? ==> forall x: nat | x < |hosts| && x != r :: Root(hosts, x) != r)
  {
    hide TabOf, Root, Population, RootLeft, RootRight, StartCollect;
    if p.pc.RecvRight? {
      StartCollectOk(hosts, r, p.(interRight := Value(msg)), heap);
    }
  }

  lemma RecvTopoOk(hosts: seq<Host>, r: nat, p: Proc, msg: Msg, heap: int)
    requires 0 < r < |hosts| && LocalOk(hosts, r, p)
    requires || (p.pc.RecvSize? && msg == Msg(0, Number(Population(hosts, r))))
             || (p.pc.RecvLeft? && msg == Msg(0, Number(RootLeft(hosts, r))))
             || (p.pc.RecvRight? && msg == Msg(0, Number(RootRight(hosts, r))))
    ensures var p' := AfterReceive(hosts, r, p, msg, heap);
      LocalOk(hosts, r, p') && ReceiveFacts(hosts, r, p, p', 0) && IsRoot(hosts, r)
  {
    hide TabOf, Root, Population, RootLeft, RootRight, ReceivedFrom, AfterReceive, RootOk;
    var p' := AfterReceive(hosts, r, p, msg, heap);
    AfterTopoMsg(hosts, r, p, msg, heap);
    forall b | 0 <= b < |hosts|
      ensures ReceivedFrom(hosts, r, p, p', 0, b)
    {
      RecvTopoFrom(hosts, r, p, p', b);
    }
  }

  // ---- a rank reporting to its root ---------------------------------------------------------

  ghost predicate CollectStep(p: Proc, p': Proc, a: nat) {
    p.pc == Collect && p.ranks != [] && p'.ranks == p.ranks + [a] && (p'.pc == Collect || p'.pc == SendRing(1, 0))
  }

  lemma CollectFrom(hosts: seq<Host>, r: nat, p: Proc, p': Proc, a: nat, b: nat)
    requires |hosts| >= 2 && r < |hosts| && b < |hosts| && a < |hosts| && IsRoot(hosts, r)
    requires CollectStep(p, p', a) && p.ranks[0] == r && a !in p.ranks && Root(hosts, a) == r
    ensures ReceivedFrom(hosts, r, p, p', a, b)
  {
    hide TabOf, Root, Script, Sent, Got, RingMsg;
    RootZero(hosts);
    if b == r {
      NoneToSelf(hosts, r, p, p', a);
    } else if Root(hosts, b) == r {
      if r == 0 {
        TellsLocal(hosts, p, b);
        TellsLocal(hosts, p', b);
      } else {
        RootTellsLocal(hosts, r, p, b);
        RootTellsLocal(hosts, r, p', b);
      }
    } else if r > 0 {
      RootTellsOther(hosts, r, p, b);
      RootTellsOther(hosts, r, p', b);
    } else if IsRoot(hosts, b) {
      TellsRoot(hosts, p, b);
      TellsRoot(hosts, p', b);
    } else {
      TellsOther(hosts, p, b);
      TellsOther(hosts, p', b);
    }
  }

  lemma AfterRank(hosts: seq<Host>, r: nat, p: Proc, a: nat, heap: int)
    requires r < |hosts| && LocalOk(hosts, r, p) && p.pc == Collect
    requires a < |hosts| && a !in p.ranks && Root(hosts, a) == r
    ensures var p' := AfterReceive(hosts, r, p, Msg(0, Number(a)), heap);
      LocalOk(hosts, r, p') && CollectStep(p, p', a)
  {
    hide TabOf, Root, Population, RootLeft, RootRight;
    RanksCount(hosts, r, p.ranks + [a]);
  }

  lemma CollectOk(hosts: seq<Host>, r: nat, p: Proc, a: nat, heap: int)
    requires |hosts| >= 2 && r < |hosts| && LocalOk(hosts, r, p) && p.pc == Collect
    requires a < |hosts| && a !in p.ranks && Root(hosts, a) == r && a != r
    ensures var p' := AfterReceive(hosts, r, p, Msg(0, Number(a)), heap);
      LocalOk(hosts, r, p') && ReceiveFacts(hosts, r, p, p', a) && IsRoot(hosts, r)
  {
    hide TabOf, Root, Population, RootLeft, RootRight, ReceivedFrom, AfterReceive;
    var p' := AfterReceive(hosts, r, p, Msg(0, Number(a)), heap);
    AfterRank(hosts, r, p, a, heap);
    forall b | 0 <= b < |hosts|
      ensures ReceivedFrom(hosts, r, p, p', a, b)
    {
      CollectFrom(hosts, r, p, p', a, b);
    }
  }

  // ---- a rank learning its ring places --------------------------------------------------------

  lemma RecvRingFrom(hosts: seq<Host>, r: nat, p: Proc, p': Proc, b: nat)
    requires r < |hosts| && b < |hosts| && !IsRoot(hosts, r) && p.pc.RecvRing?
    requires p'.pc == (if p.pc.m < 4 then RecvRing(p.pc.m + 1) else Done) && p.pc.m < 5
    ensures ReceivedFrom(hosts, r, p, p', Root(hosts, r), b)
  {
    hide TabOf, Root, Script, Sent, Got, Index;
    if b == r {
      NoneToSelf(hosts, r, p, p', Root(hosts, r));
    } else {
      LeafTells(hosts, r, p, b);
      LeafTells(hosts, r, p', b);
    }
  }

  lemma RecvRingOk(hosts: seq<Host>, r: nat, p: Proc, q: Proc, msg: Msg, heap: int)
    requires r < |hosts| && LocalOk(hosts, r, p) && p.pc.RecvRing?
    requires RootOk(hosts, Root(hosts, r), q) && Ringing(q) && PlacesAre(hosts, r, p, q)
    requires msg == RingMsg(q, Index(q.ranks, r), p.pc.m)
    ensures var p' := AfterReceive(hosts, r, p, msg, heap);
      && LocalOk(hosts, r, p') && ReceiveFacts(hosts, r, p, p', Root(hosts, r)) && PlacesAre(hosts, r, p', q)
  {
    hide TabOf, Root, Population, RootLeft, RootRight, ReceivedFrom, Index;
    var p' := AfterReceive(hosts, r, p, msg, heap);
    forall b | 0 <= b < |hosts|
      ensures ReceivedFrom(hosts, r, p, p', Root(hosts, r), b)
    {
      RecvRingFrom(hosts, r, p, p', b);
    }
  }
}
