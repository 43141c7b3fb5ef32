// Host discovery never deadlocks: as long as some rank is not done, a rank can move whose
// own messages have all been received, so even sends that wait for their receiver go on.
module DiscoveryProgress {
  import opened Topology
  import opened Messages
  import opened HostDiscovery
  import opened DiscoveryInvariant
  import opened DiscoverySteps
  import opened DiscoveryReceives
  import opened DiscoverySafety

  // Every message rank r has sent has been received.
  ghost predicate Clear(s: State, r: nat) {
    forall b: nat | b < |s.procs| :: Queue(s.chan, r, b) == []
  }

  // Rank r can move, and no send of its own is still waiting for a receiver.
  ghost predicate Ready(hosts: seq<Host>, s: State, r: nat, anySource: nat) {
    |s.procs| == |hosts| && Enabled(hosts, s, r, anySource) && Clear(s, r)
  }

  lemma Waiting(hosts: seq<Host>, s: State, a: nat, b: nat)
    requires Invariant(hosts, s) && a < |hosts| && b < |hosts|
    ensures Got(hosts, a, b, s.procs[b]) <= Sent(hosts, a, b, s.procs[a]) <= |Script(hosts, a, b, s.procs[a])|
    ensures Queue(s.chan, a, b) == [] <==> Got(hosts, a, b, s.procs[b]) == Sent(hosts, a, b, s.procs[a])
  {
    hide Got, Sent, Script, LocalOk, PlacesOk;
    assert ChannelOk(hosts, s, a, b);
  }

  // Rank 0 answers before it sends anything else, and takes the name before it answers.
  lemma ZeroOrder(hosts: seq<Host>, p: Proc, b: nat)
    requires |hosts| > 0
    ensures Replied(p, b) == 1 ==> NameGot(p, b) == 1
    ensures TopoSent(hosts, p, b) > 0 || RingSent(p, b) > 0 ==> Replied(p, b) == 1
    ensures Collecting(p) ==> Replied(p, b) == 1
  {
    hide Index, TabOf;
  }

  lemma Listed(hosts: seq<Host>, p: Proc, r: nat, b: nat)
    requires r < |hosts| && IsRoot(hosts, r) && LocalOk(hosts, r, p) && Ringing(p)
    requires b < |hosts| && Root(hosts, b) == r
    ensures b in p.ranks
  {
    hide Root, TabOf, RootLeft, RootRight;
    RanksCount(hosts, r, p.ranks);
  }

  // ---- a rank with a message waiting is ready ---------------------------------------------

  lemma RootReads(hosts: seq<Host>, s: State, b: nat)
    requires Invariant(hosts, s) && 0 < b < |hosts| && IsRoot(hosts, b) && Queue(s.chan, 0, b) != []
    ensures NameGot(s.procs[0], b) == 1
    ensures s.procs[b].pc.RecvRoot? || s.procs[b].pc.RecvSize? || s.procs[b].pc.RecvLeft? || s.procs[b].pc.RecvRight?
  {
    hide Got, Sent, Script, Root, TabOf, Replied, NameGot, TopoSent, RingSent, Queue, RootOk;
    RootZero(hosts);
    assert LocalOk(hosts, b, s.procs[b]);
    Waiting(hosts, s, 0, b);
    Waiting(hosts, s, b, 0);
    RootTellsOther(hosts, b, s.procs[b], 0);
    TellsRoot(hosts, s.procs[0], b);
    ZeroOrder(hosts, s.procs[0], b);
    OneReply(s.procs[0], b);
  }

  lemma EarlyRootClear(hosts: seq<Host>, s: State, r: nat)
    requires Invariant(hosts, s) && 0 < r < |hosts| && IsRoot(hosts, r) && NameGot(s.procs[0], r) == 1
    requires forall b: nat | b < |hosts| && b != r && Root(hosts, b) == r :: Queue(s.chan, r, b) == []
    ensures Clear(s, r)
  {
    hide Got, Sent, Script, Root, TabOf, NameGot, Queue, LocalOk;
    RootZero(hosts);
    forall b: nat | b < |hosts|
      ensures Queue(s.chan, r, b) == []
    {
      Waiting(hosts, s, r, b);
      if b == r {
        NoneToSelf(hosts, r, s.procs[r], s.procs[r], r + 1);
        SelfQuiet(hosts, s, r);
      } else if Root(hosts, b) != r {
        RootTellsOther(hosts, r, s.procs[r], b);
        if b == 0 {
          ToldZero(hosts, s.procs[0], s.procs[r], r);
        }
      }
    }
  }

  lemma SelfQuiet(hosts: seq<Host>, s: State, r: nat)
    requires Invariant(hosts, s) && r < |hosts|
    ensures Queue(s.chan, r, r) == []
  {
    hide Queue, LocalOk;
    Waiting(hosts, s, r, r);
  }

  lemma RootReady(hosts: seq<Host>, s: State, b: nat)
    requires Invariant(hosts, s) && 0 < b < |hosts| && IsRoot(hosts, b) && Queue(s.chan, 0, b) != []
    ensures Ready(hosts, s, b, 0)
  {
    hide Got, Sent, Script, Root, TabOf, NameGot, Queue, LocalOk, Match, Clear;
    RootReads(hosts, s, b);
    forall x: nat | x < |hosts| && x != b && Root(hosts, x) == b
      ensures Queue(s.chan, b, x) == []
    {
      Waiting(hosts, s, b, x);
      RootTellsLocal(hosts, b, s.procs[b], x);
    }
    EarlyRootClear(hosts, s, b);
  }

  lemma LeafClear(hosts: seq<Host>, s: State, b: nat)
    requires Invariant(hosts, s) && b < |hosts| && !IsRoot(hosts, b)
    requires Queue(s.chan, b, 0) == [] && Queue(s.chan, b, Root(hosts, b)) == []
    ensures Clear(s, b)
  {
    hide Got, Sent, Script, Root, TabOf, Queue, LocalOk;
    forall x: nat | x < |hosts|
      ensures Queue(s.chan, b, x) == []
    {
      Waiting(hosts, s, b, x);
      if x == b {
        SelfQuiet(hosts, s, b);
      } else {
        LeafTells(hosts, b, s.procs[b], x);
      }
    }
  }

  // What a rank that is not a root knows of its root and rank 0.
  ghost predicate LeafView(hosts: seq<Host>, s: State, b: nat)
    requires |s.procs| == |hosts| && b < |hosts|
  {
    var p0, p, q := s.procs[0], s.procs[Root(hosts, b)], s.procs[b];
    && (if q.pc.SendName? || q.pc.RecvRoot? then 0 else 1) <= Replied(p0, b)
    && NameGot(p0, b) <= (if q.pc.SendName? then 0 else 1)
    && RankGot(p, b) <= RankSent(q)
    && RingGot(q) <= RingSent(p, b) <= 5
    && (RingSent(p, b) > 0 ==> RankGot(p, b) == 1)
    && (Replied(p0, b) == 1 ==> NameGot(p0, b) == 1)
    && (Queue(s.chan, 0, b) == [] && Queue(s.chan, Root(hosts, b), b) == []
        <==> (if q.pc.SendName? || q.pc.RecvRoot? then 0 else 1) == Replied(p0, b) && RingGot(q) == RingSent(p, b))
    && (Queue(s.chan, b, 0) == [] && Queue(s.chan, b, Root(hosts, b)) == []
        <==> NameGot(p0, b) == (if q.pc.SendName? then 0 else 1) && RankGot(p, b) == RankSent(q))
  }

  lemma LeafSeesRoot(hosts: seq<Host>, s: State, b: nat)
    requires Invariant(hosts, s) && b < |hosts| && !IsRoot(hosts, b) && Root(hosts, b) != 0
    ensures LeafView(hosts, s, b)
  {
    hide Got, Sent, Script, Root, TabOf, Queue, LocalOk;
    hide RankSent, RankGot, RingGot, RingSent, Replied, NameGot, RingMsg;
    var r := Root(hosts, b);
    RootZero(hosts);
    RootIdempotent(hosts, b);
    Waiting(hosts, s, 0, b);
    Waiting(hosts, s, b, 0);
    Waiting(hosts, s, r, b);
    Waiting(hosts, s, b, r);
    LeafTells(hosts, b, s.procs[b], 0);
    LeafTells(hosts, b, s.procs[b], r);
    TellsOther(hosts, s.procs[0], b);
    RootTellsLocal(hosts, r, s.procs[r], b);
    ZeroOrder(hosts, s.procs[0], b);
    RingListed(hosts, s, b);
    OneReply(s.procs[0], b);
    OneReply(s.procs[r], b);
    LeafOrder(s.procs[b]);
  }

  lemma LeafOrder(q: Proc)
    ensures q.pc.SendName? || q.pc.RecvRoot? ==> RingGot(q) == 0 && RankSent(q) == 0
  {
  }

  lemma RankAfterName(p: Proc, b: nat)
    ensures RankGot(p, b) == 1 ==> NameGot(p, b) == 1
  {
  }

  lemma OneReply(p: Proc, b: nat)
    ensures Replied(p, b) <= 1 && NameGot(p, b) <= 1 && RankSent(p) <= 1 && RankGot(p, b) <= 1 && RingSent(p, b) >= 0
  {
    hide Index;
  }

  lemma LeafSeesZero(hosts: seq<Host>, s: State, b: nat)
    requires Invariant(hosts, s) && b < |hosts| && !IsRoot(hosts, b) && Root(hosts, b) == 0
    ensures LeafView(hosts, s, b)
  {
    hide Got, Sent, Script, Root, TabOf, Queue, LocalOk;
    hide RankSent, RankGot, RingGot, RingSent, Replied, NameGot, RingMsg;
    RootZero(hosts);
    Waiting(hosts, s, 0, b);
    Waiting(hosts, s, b, 0);
    LeafTells(hosts, b, s.procs[b], 0);
    TellsLocal(hosts, s.procs[0], b);
    ZeroOrder(hosts, s.procs[0], b);
    RingListed(hosts, s, b);
    OneReply(s.procs[0], b);
    OneReply(s.procs[b], b);
    LeafOrder(s.procs[b]);
    RankAfterName(s.procs[0], b);
  }

  lemma RingListed(hosts: seq<Host>, s: State, b: nat)
    requires Invariant(hosts, s) && b < |hosts|
    ensures RingSent(s.procs[Root(hosts, b)], b) > 0 ==> RankGot(s.procs[Root(hosts, b)], b) == 1
    ensures RingSent(s.procs[Root(hosts, b)], b) <= 5
  {
    hide Root, TabOf, Index, RanksOk;
    var r := Root(hosts, b);
    RootIdempotent(hosts, b);
    assert LocalOk(hosts, r, s.procs[r]);
    if Ringing(s.procs[r]) {
      Listed(hosts, s.procs[r], r, b);
    }
  }

  lemma LeafReady(hosts: seq<Host>, s: State, b: nat)
    requires Invariant(hosts, s) && b < |hosts| && !IsRoot(hosts, b)
    requires Queue(s.chan, 0, b) != [] || Queue(s.chan, Root(hosts, b), b) != []
    ensures Ready(hosts, s, b, 0)
  {
    hide Root, TabOf, Queue, RankSent, RankGot, RingSent, Replied, NameGot, Match, Clear, Index, PlacesOk, ChannelOk,
      Population, RootLeft, RootRight;
    var r, q := Root(hosts, b), s.procs[b];
    RootZero(hosts);
    LeafSees(hosts, s, b);
    assert LocalOk(hosts, b, q);
    LeafReadyPc(hosts, s, b);
    LeafClear(hosts, s, b);
    if q.pc.RecvRoot? {
      LeafFirst(hosts, s, b);
    } else {
      RingFirst(hosts, s, b);
      TakesRing(hosts, s, b, 0);
    }
  }

  lemma LeafSees(hosts: seq<Host>, s: State, b: nat)
    requires Invariant(hosts, s) && b < |hosts| && !IsRoot(hosts, b)
    ensures LeafView(hosts, s, b)
  {
    hide LeafView, Invariant, Root;
    if Root(hosts, b) == 0 {
      LeafSeesZero(hosts, s, b);
    } else {
      LeafSeesRoot(hosts, s, b);
    }
  }

  lemma LeafReadyPc(hosts: seq<Host>, s: State, b: nat)
    requires Invariant(hosts, s) && b < |hosts| && !IsRoot(hosts, b) && LeafView(hosts, s, b)
    requires Queue(s.chan, 0, b) != [] || Queue(s.chan, Root(hosts, b), b) != []
    ensures s.procs[b].pc.RecvRoot? || s.procs[b].pc.RecvRing?
    ensures Queue(s.chan, b, 0) == [] && Queue(s.chan, b, Root(hosts, b)) == []
  {
    hide Root, TabOf, Queue, RingSent, Index, PlacesOk, ChannelOk, Population, RootLeft, RootRight;
    RootZero(hosts);
    assert LocalOk(hosts, b, s.procs[b]);
    OneReply(s.procs[0], b);
    OneReply(s.procs[Root(hosts, b)], b);
    ZeroOrder(hosts, s.procs[0], b);
  }

  lemma LeafFirst(hosts: seq<Host>, s: State, b: nat)
    requires Invariant(hosts, s) && b < |hosts| && !IsRoot(hosts, b) && LeafView(hosts, s, b)
    requires s.procs[b].pc.RecvRoot?
    requires Queue(s.chan, 0, b) != [] || Queue(s.chan, Root(hosts, b), b) != []
    ensures Queue(s.chan, 0, b) != []
  {
    hide Root, TabOf, Queue, PlacesOk, ChannelOk, LocalOk, RingSent, Script, Sent, Got, Replied;
    var r := Root(hosts, b);
    RootZero(hosts);
    RootIdempotent(hosts, b);
    Waiting(hosts, s, r, b);
    if r != 0 {
      RootTellsLocal(hosts, r, s.procs[r], b);
      OneReply(s.procs[r], b);
    }
  }

  lemma RingFirst(hosts: seq<Host>, s: State, b: nat)
    requires Invariant(hosts, s) && b < |hosts| && !IsRoot(hosts, b) && LeafView(hosts, s, b)
    requires s.procs[b].pc.RecvRing?
    requires Queue(s.chan, 0, b) != [] || Queue(s.chan, Root(hosts, b), b) != []
    ensures Queue(s.chan, Root(hosts, b), b) != []
  {
    hide Root, TabOf, Queue, PlacesOk, ChannelOk, LocalOk, RingSent, Script, Sent, Got, Replied;
    var r := Root(hosts, b);
    RootZero(hosts);
    Waiting(hosts, s, 0, b);
    OneReply(s.procs[0], b);
    if r != 0 {
      TellsOther(hosts, s.procs[0], b);
      LeafTells(hosts, b, s.procs[b], 0);
    }
  }

  // ---- nothing rank 0 or a root has sent to its host is waiting -------------------------------

  ghost predicate Quiet(hosts: seq<Host>, s: State) {
    forall b: nat | b < |hosts| :: Queue(s.chan, 0, b) == [] && Queue(s.chan, Root(hosts, b), b) == []
  }

  lemma QuietRoot(hosts: seq<Host>, s: State, r: nat)
    requires Invariant(hosts, s) && Quiet(hosts, s) && r < |hosts| && IsRoot(hosts, r)
    requires r > 0 ==> Collecting(s.procs[0])
    ensures Clear(s, r)
  {
    hide Root, TabOf, Queue, LocalOk, PlacesOk, ChannelOk, Collecting, NameGot, Replied;
    if r > 0 {
      ZeroOrder(hosts, s.procs[0], r);
      EarlyRootClear(hosts, s, r);
    }
  }

  lemma QuietGather(hosts: seq<Host>, s: State, i: nat) returns (r: nat)
    requires Invariant(hosts, s) && Quiet(hosts, s) && s.procs[0].pc == GatherName(i)
    ensures Ready(hosts, s, r, 0)
  {
    hide Root, TabOf, Queue, PlacesOk, ChannelOk, Script, Sent;
    hide Got, Match, Clear, Population, RootLeft, RootRight, RootOk;
    assert LocalOk(hosts, 0, s.procs[0]);
    assert LocalOk(hosts, i, s.procs[i]);
    RootZero(hosts);
    Waiting(hosts, s, i, 0);
    if s.procs[i].pc.SendName? {
      SilentSoFar(hosts, s, i);
      return i;
    } else {
      ToldZero(hosts, s.procs[0], s.procs[i], i);
      NameSent(hosts, s.procs[i], i);
      QuietRoot(hosts, s, 0);
      return 0;
    }
  }

  lemma NameSent(hosts: seq<Host>, p: Proc, i: nat)
    requires 0 < i < |hosts| && !p.pc.SendName?
    ensures Sent(hosts, i, 0, p) >= 1
  {
    hide Root, TabOf;
  }

  lemma SilentSoFar(hosts: seq<Host>, s: State, i: nat)
    requires Invariant(hosts, s) && 0 < i < |hosts| && s.procs[i].pc.SendName?
    ensures Clear(s, i)
  {
    hide Root, TabOf, Queue, LocalOk, Script, Got;
    forall b: nat | b < |hosts|
      ensures Queue(s.chan, i, b) == []
    {
      Waiting(hosts, s, i, b);
    }
  }

  // A root that collects, or sends its host their places.
  lemma QuietRing(hosts: seq<Host>, s: State, r: nat) returns (x: nat, anySource: nat)
    requires Invariant(hosts, s) && Quiet(hosts, s) && r < |hosts| && IsRoot(hosts, r) && Collecting(s.procs[0])
    requires s.procs[r].pc.Collect? || s.procs[r].pc.SendRing?
    ensures Ready(hosts, s, x, anySource)
  {
    hide Root, TabOf, Queue, PlacesOk, ChannelOk, LocalOk, Clear, Match, Nat;
    QuietRoot(hosts, s, r);
    if s.procs[r].pc.SendRing? {
      return r, 0;
    } else {
      var a := Unlisted(hosts, s, r);
      UnlistedState(hosts, s, r, a);
      if s.procs[a].pc.SendRank? {
        return a, 0;
      } else {
        return r, a;
      }
    }
  }

  lemma Unlisted(hosts: seq<Host>, s: State, r: nat) returns (a: nat)
    requires Invariant(hosts, s) && r < |hosts| && IsRoot(hosts, r) && s.procs[r].pc.Collect?
    ensures a < |hosts| && Root(hosts, a) == r && a != r && RankGot(s.procs[r], a) == 0
  {
    hide Root, TabOf, Queue, PlacesOk, ChannelOk, Population, RootLeft, RootRight;
    assert LocalOk(hosts, r, s.procs[r]);
    RanksCount(hosts, r, s.procs[r].ranks);
    a :| a < |hosts| && Root(hosts, a) == r && a !in s.procs[r].ranks;
  }

  lemma UnlistedState(hosts: seq<Host>, s: State, r: nat, a: nat)
    requires Invariant(hosts, s) && Quiet(hosts, s) && r < |hosts| && Collecting(s.procs[0])
    requires a < |hosts| && Root(hosts, a) == r && a != r && RankGot(s.procs[r], a) == 0
    ensures if s.procs[a].pc.SendRank? then Clear(s, a) else Queue(s.chan, a, r) != []
  {
    hide Root, TabOf, Queue, PlacesOk, ChannelOk, Population, RootLeft, RootRight, RingSent, RingGot, Index;
    RootZero(hosts);
    assert LocalOk(hosts, a, s.procs[a]);
    LeafSees(hosts, s, a);
    ZeroOrder(hosts, s.procs[0], a);
    if s.procs[a].pc.SendRank? {
      LeafClear(hosts, s, a);
    } else {
      RankWaits(hosts, s, a);
    }
  }

  lemma RankWaits(hosts: seq<Host>, s: State, a: nat)
    requires Invariant(hosts, s) && a < |hosts| && !IsRoot(hosts, a) && LeafView(hosts, s, a)
    requires RankSent(s.procs[a]) == 1 && RankGot(s.procs[Root(hosts, a)], a) == 0
    ensures Queue(s.chan, a, Root(hosts, a)) != []
  {
    hide Root, TabOf, Queue, LocalOk, RankSent, RankGot, Script, Sent, Got, NameGot, RingSent, RingGot, Replied;
    var r := Root(hosts, a);
    RootZero(hosts);
    RootIdempotent(hosts, a);
    Waiting(hosts, s, a, r);
    LeafTells(hosts, a, s.procs[a], r);
    LeafOrder(s.procs[a]);
    OneReply(s.procs[0], a);
    if r == 0 {
      ToldZero(hosts, s.procs[0], s.procs[a], a);
    } else {
      OtherTellsRoot(hosts, r, s.procs[r], s.procs[a], a);
    }
  }

  // Once rank 0 is done, the root of a rank that is not can move, or lets someone move.
  lemma QuietHost(hosts: seq<Host>, s: State, r: nat)
    requires Invariant(hosts, s) && Quiet(hosts, s) && r < |hosts| && IsRoot(hosts, r) && s.procs[0].pc.Done?
    ensures Collecting(s.procs[r])
  {
    hide Root, TabOf, Queue, PlacesOk, ChannelOk, Population, RootLeft, RootRight, RanksOk, Script, Sent, Got, Index;
    assert LocalOk(hosts, r, s.procs[r]);
    if r > 0 {
      Waiting(hosts, s, 0, r);
      RootZero(hosts);
      RootTellsOther(hosts, r, s.procs[r], 0);
      TellsRoot(hosts, s.procs[0], r);
    }
  }

  lemma QuietLeaf(hosts: seq<Host>, s: State, a: nat)
    requires Invariant(hosts, s) && Quiet(hosts, s) && a < |hosts| && !IsRoot(hosts, a) && s.procs[0].pc.Done?
    requires s.procs[Root(hosts, a)].pc.Done?
    ensures s.procs[a].pc.Done?
  {
    hide Root, TabOf, Queue, PlacesOk, ChannelOk, Population, RootLeft, RootRight, Index;
    RootZero(hosts);
    assert LocalOk(hosts, a, s.procs[a]);
    LeafSees(hosts, s, a);
  }

  // ---- the theorem ----------------------------------------------------------------------------

  lemma Progress(hosts: seq<Host>, s: State, q: nat) returns (r: nat, anySource: nat)
    requires Invariant(hosts, s) && q < |hosts| && !s.procs[q].pc.Done?
    ensures Ready(hosts, s, r, anySource)
  {
    hide Root, TabOf, Queue, PlacesOk, ChannelOk, LocalOk, Ready;
    if Quiet(hosts, s) {
      r, anySource := QuietProgress(hosts, s, q);
    } else {
      r :| r < |hosts| && !(Queue(s.chan, 0, r) == [] && Queue(s.chan, Root(hosts, r), r) == []);
      anySource := 0;
      if IsRoot(hosts, r) {
        SelfQuiet(hosts, s, r);
        RootReady(hosts, s, r);
      } else {
        LeafReady(hosts, s, r);
      }
    }
  }

  lemma QuietProgress(hosts: seq<Host>, s: State, q: nat) returns (r: nat, anySource: nat)
    requires Invariant(hosts, s) && Quiet(hosts, s) && q < |hosts| && !s.procs[q].pc.Done?
    ensures Ready(hosts, s, r, anySource)
  {
    hide Root, TabOf, Queue, PlacesOk, ChannelOk, Quiet, RootLeft, RootRight, Population, RanksOk, Nat, Clear, TopoMsg;
    RootZero(hosts);
    assert LocalOk(hosts, 0, s.procs[0]);
    match s.procs[0].pc
    case GatherName(i) =>
      r := QuietGather(hosts, s, i);
      anySource := 0;
    case ReplyRoot(_, _) =>
      QuietRoot(hosts, s, 0);
      r, anySource := 0, 0;
    case SendTopo(_, _) =>
      QuietRoot(hosts, s, 0);
      r, anySource := 0, 0;
    case Collect => r, anySource := QuietRing(hosts, s, 0);
    case SendRing(_, _) => r, anySource := QuietRing(hosts, s, 0);
    case Done => r, anySource := QuietRest(hosts, s, q);
  }

  lemma QuietRest(hosts: seq<Host>, s: State, q: nat) returns (r: nat, anySource: nat)
    requires Invariant(hosts, s) && Quiet(hosts, s) && q < |hosts| && !s.procs[q].pc.Done? && s.procs[0].pc.Done?
    ensures Ready(hosts, s, r, anySource)
  {
    hide Root, TabOf, Queue, PlacesOk, ChannelOk, LocalOk, Quiet, Ready;
    var root := Root(hosts, q);
    RootIdempotent(hosts, q);
    QuietHost(hosts, s, root);
    if s.procs[root].pc.Done? {
      QuietLeaf(hosts, s, q);
      assert false;
    } else {
      r, anySource := QuietRing(hosts, s, root);
    }
  }
}
