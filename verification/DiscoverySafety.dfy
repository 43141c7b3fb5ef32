// Host discovery keeps its invariant, whatever rank moves next and whichever message a
// root that listens to everybody takes.
module DiscoverySafety {
  import opened Topology
  import opened Messages
  import opened HostDiscovery
  import opened DiscoveryInvariant
  import opened DiscoverySteps
  import opened DiscoveryReceives

  // What any step of rank r must give for the invariant to survive, but for the channels.
  ghost predicate Moves(hosts: seq<Host>, s: State, r: nat, p': Proc)
    requires |s.procs| == |hosts| && r < |hosts|
  {
    var p := s.procs[r];
    && LocalOk(hosts, r, p')
    && (Ringing(p) ==> Ringing(p') && p'.ranks == p.ranks && p'.intraSize == p.intraSize)
    && PlacesAre(hosts, r, p', s.procs[Root(hosts, r)])
  }

  lemma MovesKeeps(hosts: seq<Host>, s: State, r: nat, p': Proc, chan: Channels)
    requires Invariant(hosts, s) && r < |hosts| && Moves(hosts, s, r, p')
    requires ChannelsOk(hosts, State(s.procs[r := p'], chan))
    ensures Invariant(hosts, State(s.procs[r := p'], chan))
  {
    hide LocalOk, ChannelOk, Root, Index, RingGot, RingMsg, Ringing;
    var s' := State(s.procs[r := p'], chan);
    forall l | 0 <= l < |hosts|
      ensures PlacesOk(hosts, s', l)
    {
      assert PlacesOk(hosts, s, l);
      if l != r && Root(hosts, l) == r && !IsRoot(hosts, l) {
        SamePlaces(hosts, l, s.procs[l], s.procs[r], p');
      }
    }
  }

  lemma SamePlaces(hosts: seq<Host>, l: nat, p: Proc, q: Proc, q': Proc)
    requires l < |hosts| && PlacesAre(hosts, l, p, q)
    requires Ringing(q) ==> Ringing(q') && q'.ranks == q.ranks && q'.intraSize == q.intraSize
    ensures PlacesAre(hosts, l, p, q')
  {
    hide Index, Root;
  }

  // ---- sends --------------------------------------------------------------------------------

  lemma SendMoves(hosts: seq<Host>, s: State, r: nat, d: nat, msg: Msg, heap: int)
    requires Invariant(hosts, s) && r < |hosts| && Next(hosts, r, s.procs[r], 0) == Sends(d, msg)
    ensures SendFacts(hosts, r, s.procs[r], AfterSend(hosts, r, s.procs[r], heap), d, msg)
    ensures Moves(hosts, s, r, AfterSend(hosts, r, s.procs[r], heap))
  {
    hide SendFacts, Root, TabOf, RanksOk, ChannelOk, Settle;
    hide CloseRing, RingMsg, TopoMsg, RootLeft, RootRight, Population;
    var p := s.procs[r];
    assert LocalOk(hosts, r, p);
    match p.pc
    case SendName => SendNameOk(hosts, r, p, heap);
    case ReplyRoot(_, _) => ReplyRootOk(hosts, p, heap); RootZero(hosts);
    case SendTopo(_, _) => SendTopoOk(hosts, p, heap); RootZero(hosts);
    case SendRank => SendRankOk(hosts, r, p, heap);
    case SendRing(_, _) => SendRingOk(hosts, r, p, heap); RingRoot(hosts, r, p, heap);
  }

  lemma RingRoot(hosts: seq<Host>, r: nat, p: Proc, heap: int)
    requires r < |hosts| && LocalOk(hosts, r, p) && p.pc.SendRing?
    ensures IsRoot(hosts, r)
    ensures var p' := AfterSend(hosts, r, p, heap);
      Ringing(p') && p'.ranks == p.ranks && p'.intraSize == p.intraSize
  {
    hide Root, TabOf, RanksOk, RootLeft, RootRight, Population;
    RootZero(hosts);
  }

  // ---- receives -----------------------------------------------------------------------------

  // Rank r takes the first message of the channel from a, and it is what r expects.
  ghost predicate Takes(hosts: seq<Host>, s: State, r: nat, a: nat, tag: int, heap: int)
    requires |s.procs| == |hosts| && r < |hosts|
  {
    && a < |hosts| && Queue(s.chan, a, r) != [] && Match(Queue(s.chan, a, r), tag) == 0
    && ReceiveFacts(hosts, r, s.procs[r], AfterReceive(hosts, r, s.procs[r], Queue(s.chan, a, r)[0], heap), a)
    && Moves(hosts, s, r, AfterReceive(hosts, r, s.procs[r], Queue(s.chan, a, r)[0], heap))
  }

  lemma TakesRoot(hosts: seq<Host>, s: State, r: nat, heap: int)
    requires Invariant(hosts, s) && 0 < r < |hosts| && s.procs[r].pc.RecvRoot? && Queue(s.chan, 0, r) != []
    ensures Takes(hosts, s, r, 0, ANY_TAG, heap)
  {
    hide Script, Sent, Got, Root, TabOf, LocalOk, RootOk, ChannelOk, PlacesOk, RingMsgs, RingSent, TopoMsgs, TopoSent,
      ReceiveFacts, AfterReceive;
    var p, q := s.procs[r], s.procs[0];
    Head(hosts, s, 0, r);
    RootZero(hosts);
    if IsRoot(hosts, r) {
      RootTellsOther(hosts, r, p, 0);
      TellsRoot(hosts, q, r);
    } else {
      LeafTells(hosts, r, p, 0);
      ZeroTellsLeaf(hosts, q, r);
    }
    RecvRootOk(hosts, r, p, Queue(s.chan, 0, r)[0], heap);
  }

  lemma ZeroTellsLeaf(hosts: seq<Host>, q: Proc, r: nat)
    requires 0 < r < |hosts| && !IsRoot(hosts, r)
    ensures Script(hosts, 0, r, q)
         == [Msg(0, Number(Root(hosts, r)))] + (if Root(hosts, r) == 0 then RingMsgs(q, r) else [])
  {
    hide TabOf, Root, RingMsgs;
  }

  lemma TakesName(hosts: seq<Host>, s: State, i: nat, heap: int)
    requires Invariant(hosts, s) && i < |hosts| && s.procs[0].pc == GatherName(i) && Queue(s.chan, i, 0) != []
    ensures Takes(hosts, s, 0, i, ANY_TAG, heap)
  {
    hide Script, Sent, Got, Root, TabOf, RootOk, ChannelOk, PlacesOk, RingMsgs, RingSent, TopoMsgs, TopoSent,
      ReceiveFacts, AfterReceive;
    var p := s.procs[0];
    assert LocalOk(hosts, 0, p);
    Head(hosts, s, i, 0);
    RootZero(hosts);
    ToldZero(hosts, p, s.procs[i], i);
    GatherOk(hosts, p, i, heap);
  }

  // Rank i's script for rank 0, and how much of it rank 0 has.
  lemma ToldZero(hosts: seq<Host>, p: Proc, q: Proc, i: nat)
    requires 0 < i < |hosts|
    ensures Script(hosts, i, 0, q)
         == [Msg(i, Text(hosts[i]))] + (if Root(hosts, i) == 0 then [Msg(0, Number(i))] else [])
    ensures Got(hosts, i, 0, p) == NameGot(p, i) + (if Root(hosts, i) == 0 then RankGot(p, i) else 0)
  {
    hide TabOf, Root;
  }

  lemma TakesTopo(hosts: seq<Host>, s: State, r: nat, heap: int)
    requires Invariant(hosts, s) && 0 < r < |hosts| && Queue(s.chan, 0, r) != []
    requires s.procs[r].pc.RecvSize? || s.procs[r].pc.RecvLeft? || s.procs[r].pc.RecvRight?
    ensures Takes(hosts, s, r, 0, ANY_TAG, heap)
  {
    hide Script, Sent, Got, Root, TabOf, RootOk, ChannelOk, PlacesOk, RingMsgs, RingSent, TopoMsgs, TopoSent,
      ReceiveFacts, AfterReceive, Population, RootLeft, RootRight;
    var p, q := s.procs[r], s.procs[0];
    assert LocalOk(hosts, r, p);
    Head(hosts, s, 0, r);
    RootZero(hosts);
    RootTellsOther(hosts, r, p, 0);
    TellsRoot(hosts, q, r);
    TopoValues(hosts, r);
    RecvTopoOk(hosts, r, p, Queue(s.chan, 0, r)[0], heap);
  }

  lemma TakesRank(hosts: seq<Host>, s: State, r: nat, a: nat, heap: int)
    requires Invariant(hosts, s) && r < |hosts| && s.procs[r].pc.Collect? && a < |hosts| && Queue(s.chan, a, r) != []
    ensures Takes(hosts, s, r, a, ANY_TAG, heap)
    ensures a !in s.procs[r].ranks && Root(hosts, a) == r && a != r
  {
    hide Script, Sent, Got, Root, TabOf, ChannelOk, PlacesOk, RingMsgs, RingSent, TopoMsgs, TopoSent,
      ReceiveFacts, AfterReceive, Population, RootLeft, RootRight;
    var p := s.procs[r];
    assert LocalOk(hosts, r, p);
    Head(hosts, s, a, r);
    RootZero(hosts);
    WhoReports(hosts, r, p, s.procs[a], a);
    CollectOk(hosts, r, p, a, heap);
  }

  // A root that collects has nothing left to receive but ranks of its host it has not listed.
  lemma WhoReports(hosts: seq<Host>, r: nat, p: Proc, q: Proc, a: nat)
    requires |hosts| >= 2 && r < |hosts| && a < |hosts| && IsRoot(hosts, r) && p.pc.Collect?
    requires RanksOk(hosts, r, p.ranks)
    requires Got(hosts, a, r, p) < |Script(hosts, a, r, q)|
    ensures a !in p.ranks && Root(hosts, a) == r && a != r
    ensures Script(hosts, a, r, q)[Got(hosts, a, r, p)] == Msg(0, Number(a))
  {
    hide Root, TabOf, RingMsgs, Script, Got, TopoMsgs;
    RootZero(hosts);
    if a == r {
      NoneToSelf(hosts, r, p, q, 0 + (if r == 0 then 1 else 0));
      SelfScript(hosts, r, q);
    } else if r == 0 {
      ToldZero(hosts, p, q, a);
    } else if a == 0 {
      RootTellsOther(hosts, r, p, 0);
      TellsRoot(hosts, q, r);
    } else {
      OtherTellsRoot(hosts, r, p, q, a);
    }
  }

  lemma SelfScript(hosts: seq<Host>, r: nat, q: Proc)
    requires r < |hosts|
    ensures Script(hosts, r, r, q) == []
  {
  }

  lemma OtherTellsRoot(hosts: seq<Host>, r: nat, p: Proc, q: Proc, a: nat)
    requires 0 < r < |hosts| && 0 < a < |hosts| && a != r && IsRoot(hosts, r)
    ensures Script(hosts, a, r, q) == if Root(hosts, a) == r then [Msg(0, Number(a))] else []
    ensures Got(hosts, a, r, p) == if Root(hosts, a) == r then RankGot(p, a) else 0
  {
    hide TabOf, Root;
  }

  lemma TakesRing(hosts: seq<Host>, s: State, r: nat, heap: int)
    requires Invariant(hosts, s) && r < |hosts| && s.procs[r].pc.RecvRing? && Queue(s.chan, Root(hosts, r), r) != []
    ensures s.procs[r].intraRoot == Root(hosts, r)
    ensures Takes(hosts, s, r, Root(hosts, r), s.procs[r].pc.m + 1, heap)
  {
    hide Script, Sent, Got, Root, TabOf, ChannelOk, RingMsgs, RingSent, TopoMsgs, TopoSent,
      ReceiveFacts, AfterReceive, Population, RootLeft, RootRight, RanksOk, PlacesAre;
    var a := Root(hosts, r);
    var p, q := s.procs[r], s.procs[a];
    assert LocalOk(hosts, r, p);
    assert LocalOk(hosts, a, q);
    assert PlacesOk(hosts, s, r);
    RootZero(hosts);
    RootIdempotent(hosts, r);
    Head(hosts, s, a, r);
    RingHead(hosts, r, p, q);
    RecvRingOk(hosts, r, p, q, Queue(s.chan, a, r)[0], heap);
  }

  lemma RingHead(hosts: seq<Host>, r: nat, p: Proc, q: Proc)
    requires r < |hosts| && !IsRoot(hosts, r) && p.pc.RecvRing? && p.pc.m < 5
    requires Got(hosts, Root(hosts, r), r, p) < |Script(hosts, Root(hosts, r), r, q)|
    ensures Ringing(q)
    ensures Script(hosts, Root(hosts, r), r, q)[Got(hosts, Root(hosts, r), r, p)]
         == RingMsg(q, Index(q.ranks, r), p.pc.m)
  {
    hide Root, TabOf, Script, Got, RingMsg, Index, Sent;
    RootZero(hosts);
    RootIdempotent(hosts, r);
    LeafTells(hosts, r, p, Root(hosts, r));
    if Root(hosts, r) == 0 {
      ZeroTellsLeaf(hosts, q, r);
    } else {
      RootTellsLocal(hosts, Root(hosts, r), q, r);
    }
  }

  lemma NotEmpty(chan: Channels, a: nat, b: nat, tag: int)
    requires CanReceive(chan, a, b, tag)
    ensures Queue(chan, a, b) != []
  {
  }

  lemma ReceiveMoves(hosts: seq<Host>, s: State, r: nat, anySource: nat, a: nat, tag: int, heap: int)
    requires Invariant(hosts, s) && r < |hosts| && anySource < |hosts|
    requires Next(hosts, r, s.procs[r], anySource) == Receives(a, tag) && CanReceive(s.chan, a, r, tag)
    ensures Takes(hosts, s, r, a, tag, heap)
  {
    hide Takes, Root, TabOf, RanksOk, ChannelOk, PlacesOk, RootLeft, RootRight, Population, CanReceive;
    var p := s.procs[r];
    assert LocalOk(hosts, r, p);
    NotEmpty(s.chan, a, r, tag);
    match p.pc
    case RecvRoot => TakesRoot(hosts, s, r, heap);
    case GatherName(i) => TakesName(hosts, s, i, heap);
    case RecvSize => TakesTopo(hosts, s, r, heap);
    case RecvLeft => TakesTopo(hosts, s, r, heap);
    case RecvRight => TakesTopo(hosts, s, r, heap);
    case Collect => TakesRank(hosts, s, r, anySource, heap);
    case RecvRing(_) => TakesRing(hosts, s, r, heap);
  }

  // ---- the theorem ----------------------------------------------------------------------------

  lemma StepKeeps(hosts: seq<Host>, s: State, r: nat, anySource: nat, heap: int)
    requires Invariant(hosts, s) && Enabled(hosts, s, r, anySource)
    ensures Invariant(hosts, Step(hosts, s, r, anySource, heap))
  {
    hide LocalOk, ChannelOk, PlacesOk, SendFacts, ReceiveFacts, Moves, AfterSend, AfterReceive, Send, Next;
    var p := s.procs[r];
    match Next(hosts, r, p, anySource)
    case Sends(d, msg) =>
      SameSend(hosts, r, p, anySource);
      SendMoves(hosts, s, r, d, msg, heap);
      SendKeepsChannels(hosts, s, r, AfterSend(hosts, r, p, heap), d, msg);
      MovesKeeps(hosts, s, r, AfterSend(hosts, r, p, heap), Send(s.chan, r, d, msg));
    case Receives(a, tag) =>
      ReceiveMoves(hosts, s, r, anySource, a, tag, heap);
      var p' := AfterReceive(hosts, r, p, Queue(s.chan, a, r)[0], heap);
      ReceiveKeepsChannels(hosts, s, r, p', a, tag);
      MovesKeeps(hosts, s, r, p', Receive(s.chan, a, r, tag));
  }

  lemma SameSend(hosts: seq<Host>, r: nat, p: Proc, anySource: nat)
    requires r < |hosts| && Next(hosts, r, p, anySource).Sends?
    ensures Next(hosts, r, p, 0) == Next(hosts, r, p, anySource)
  {
  }

  lemma InitialOk(hosts: seq<Host>, s: State)
    requires |hosts| >= 2 && Initial(hosts, s)
    ensures Invariant(hosts, s)
  {
    hide TabOf, Root, Index;
    RootZero(hosts);
    forall a, b | 0 <= a < |hosts| && 0 <= b < |hosts|
      ensures ChannelOk(hosts, s, a, b)
    {
      InitialChannel(hosts, s, a, b);
    }
  }

  lemma InitialChannel(hosts: seq<Host>, s: State, a: nat, b: nat)
    requires |hosts| >= 2 && Initial(hosts, s) && a < |hosts| && b < |hosts|
    ensures ChannelOk(hosts, s, a, b)
  {
    hide TabOf, Root, Index, Script;
    RootZero(hosts);
  }
}
