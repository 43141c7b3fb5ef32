// What holds in every state host discovery can reach: how far each rank has come, that
// what it knows is right, and what is in every channel.
module DiscoveryInvariant {
  import opened Finite
  import opened Topology
  import opened Messages
  import opened HostDiscovery

  function Index(s: seq<nat>, x: nat): (k: nat)
    ensures k <= |s|
    ensures x in s ==> k < |s|
    ensures k < |s| ==> s[k] == x
  {
    if s == [] || s[0] == x then 0 else 1 + Index(s[1..], x)
  }

  lemma IndexOf(s: seq<nat>, k: nat)
    requires Distinct(s) && k < |s|
    ensures Index(s, s[k]) == k
  {
    assert s[k] in s;
  }

  // The roots in the order they were discovered.
  function Roots(hosts: seq<Host>): seq<nat>
    requires |hosts| > 0
  {
    TabOf(hosts, |hosts|).roots
  }

  function RootLeft(hosts: seq<Host>, r: nat): int
    requires |hosts| > 0
  {
    LeftOf(Roots(hosts), Index(Roots(hosts), r))
  }

  function RootRight(hosts: seq<Host>, r: nat): int
    requires |hosts| > 0
  {
    RightOf(Roots(hosts), Index(Roots(hosts), r))
  }

  // A list of ranks of root r's host, r first.
  ghost predicate RanksOk(hosts: seq<Host>, r: nat, ranks: seq<nat>)
    requires r < |hosts|
  {
    && ranks != [] && ranks[0] == r && Distinct(ranks)
    && forall x | x in ranks :: x < |hosts| && Root(hosts, x) == r
  }

  // A root that has learnt its neighbours.
  ghost predicate RootOk(hosts: seq<Host>, r: nat, p: Proc)
    requires r < |hosts|
  {
    && IsRoot(hosts, r) && p.intraRoot == r && p.intraSize == Population(hosts, r)
    && p.interLeft == RootLeft(hosts, r) && p.interRight == RootRight(hosts, r)
    && RanksOk(hosts, r, p.ranks)
    && match p.pc
       case Collect => |p.ranks| < Population(hosts, r)
       case SendRing(j, m) => |p.ranks| == Population(hosts, r) && 1 <= j < |p.ranks| && m < 5
       case Done =>
         && |p.ranks| == Population(hosts, r)
         && p.intraLeft == p.ranks[|p.ranks| - 1]
         && (1 < |p.ranks| ==> p.intraRight == p.ranks[1])
       case _ => false
  }

  ghost predicate LocalOk(hosts: seq<Host>, r: nat, p: Proc)
    requires r < |hosts|
  {
    if r == 0 then
      p.intraRoot == 0 &&
      match p.pc
      case GatherName(i) => 1 <= i < |hosts| && p.tab == TabOf(hosts, i)
      case ReplyRoot(i, j) =>
        && 1 <= i < |hosts| && p.tab == TabOf(hosts, i + 1)
        && j < |p.tab.roots| && p.tab.roots[j] == Root(hosts, i)
      case SendTopo(j, m) => p.tab == TabOf(hosts, |hosts|) && 1 <= j < |p.tab.roots| && m < 3
      case _ => p.tab == TabOf(hosts, |hosts|) && RootOk(hosts, 0, p)
    else
      match p.pc
      case SendName => true
      case RecvRoot => true
      case RecvSize => IsRoot(hosts, r) && p.intraRoot == r
      case RecvLeft => IsRoot(hosts, r) && p.intraRoot == r && p.intraSize == Population(hosts, r)
      case RecvRight =>
        && IsRoot(hosts, r) && p.intraRoot == r && p.intraSize == Population(hosts, r)
        && p.interLeft == RootLeft(hosts, r)
      case SendRank => !IsRoot(hosts, r) && p.intraRoot == Root(hosts, r)
      case RecvRing(m) => m < 5 && LeafOk(hosts, r, p, m)
      case Done => if IsRoot(hosts, r) then RootOk(hosts, r, p) else LeafOk(hosts, r, p, 5)
      case _ => RootOk(hosts, r, p)
  }

  // A rank that is not a root, m ring messages in.
  ghost predicate LeafOk(hosts: seq<Host>, r: nat, p: Proc, m: nat)
    requires r < |hosts|
  {
    && !IsRoot(hosts, r) && p.intraRoot == Root(hosts, r)
    && (m >= 1 ==> p.interLeft == RootLeft(hosts, Root(hosts, r)))
    && (m >= 2 ==> p.interRight == RootRight(hosts, Root(hosts, r)))
    && (m >= 3 ==> p.intraSize == Population(hosts, Root(hosts, r)))
  }

  // ---- channels -----------------------------------------------------------------------

  predicate Ringing(p: Proc) {
    p.pc.SendRing? || p.pc.Done?
  }

  predicate Collecting(p: Proc) {
    p.pc.Collect? || Ringing(p)
  }

  function RingMsgs(p: Proc, b: nat): seq<Msg> {
    var k := Index(p.ranks, b);
    if Ringing(p) then [RingMsg(p, k, 0), RingMsg(p, k, 1), RingMsg(p, k, 2), RingMsg(p, k, 3), RingMsg(p, k, 4)]
    else []
  }

  function TopoMsgs(hosts: seq<Host>, b: nat): seq<Msg>
    requires |hosts| > 0
  {
    var tab, k := TabOf(hosts, |hosts|), Index(Roots(hosts), b);
    [TopoMsg(tab, k, 0), TopoMsg(tab, k, 1), TopoMsg(tab, k, 2)]
  }

  // All that rank a, now p, has to tell rank b in the whole run, as far as it is settled.
  function Script(hosts: seq<Host>, a: nat, b: nat, p: Proc): seq<Msg>
    requires a < |hosts| && b < |hosts|
  {
    if a == b then []
    else if b == 0 then
      [Msg(a, Text(hosts[a]))] + (if Root(hosts, a) == 0 then [Msg(0, Number(a))] else [])
    else if a == 0 then
      [Msg(0, Number(Root(hosts, b)))]
      + (if IsRoot(hosts, b) then TopoMsgs(hosts, b)
         else if Root(hosts, b) == 0 then RingMsgs(p, b) else [])
    else if IsRoot(hosts, a) then (if Root(hosts, b) == a then RingMsgs(p, b) else [])
    else if b == Root(hosts, a) then [Msg(0, Number(a))]
    else []
  }

  function RingSent(p: Proc, b: nat): nat {
    var k := Index(p.ranks, b);
    match p.pc
    case SendRing(j, m) => if k < j then 5 else if k == j then m else 0
    case Done => 5
    case _ => 0
  }

  function TopoSent(hosts: seq<Host>, p: Proc, b: nat): nat
    requires |hosts| > 0
  {
    var k := Index(Roots(hosts), b);
    match p.pc
    case GatherName(_) => 0
    case ReplyRoot(_, _) => 0
    case SendTopo(j, m) => if k < j then 3 else if k == j then m else 0
    case _ => 3
  }

  function Replied(p: Proc, b: nat): nat {
    match p.pc
    case GatherName(i) => if b < i then 1 else 0
    case ReplyRoot(i, _) => if b < i then 1 else 0
    case _ => 1
  }

  function RankSent(p: Proc): nat {
    if p.pc.RecvRing? || p.pc.Done? then 1 else 0
  }

  // How much of the script rank a, now p, has sent.
  function Sent(hosts: seq<Host>, a: nat, b: nat, p: Proc): nat
    requires a < |hosts| && b < |hosts|
  {
    if a == b then 0
    else if b == 0 then
      (if p.pc.SendName? then 0 else 1) + (if Root(hosts, a) == 0 then RankSent(p) else 0)
    else if a == 0 then
      Replied(p, b) + (if IsRoot(hosts, b) then TopoSent(hosts, p, b)
                       else if Root(hosts, b) == 0 then RingSent(p, b) else 0)
    else if IsRoot(hosts, a) then (if Root(hosts, b) == a then RingSent(p, b) else 0)
    else if b == Root(hosts, a) then RankSent(p)
    else 0
  }

  function NameGot(q: Proc, a: nat): nat {
    match q.pc
    case GatherName(i) => if a < i then 1 else 0
    case ReplyRoot(i, _) => if a <= i then 1 else 0
    case _ => 1
  }

  function RankGot(q: Proc, a: nat): nat {
    if Collecting(q) && a in q.ranks then 1 else 0
  }

  function RingGot(q: Proc): nat {
    match q.pc
    case RecvRing(m) => m
    case Done => 5
    case _ => 0
  }

  function TopoGot(q: Proc): nat {
    match q.pc
    case SendName => 0
    case RecvRoot => 0
    case RecvSize => 0
    case RecvLeft => 1
    case RecvRight => 2
    case _ => 3
  }

  // How much of the script rank b, now q, has received.
  function Got(hosts: seq<Host>, a: nat, b: nat, q: Proc): nat
    requires a < |hosts| && b < |hosts|
  {
    if a == b then 0
    else if b == 0 then NameGot(q, a) + (if Root(hosts, a) == 0 then RankGot(q, a) else 0)
    else if a == 0 then
      (if q.pc.SendName? || q.pc.RecvRoot? then 0 else 1)
      + (if IsRoot(hosts, b) then TopoGot(q) else if Root(hosts, b) == 0 then RingGot(q) else 0)
    else if IsRoot(hosts, a) then (if Root(hosts, b) == a then RingGot(q) else 0)
    else if b == Root(hosts, a) then RankGot(q, a)
    else 0
  }

  ghost predicate ChannelOk(hosts: seq<Host>, s: State, a: nat, b: nat)
    requires |s.procs| == |hosts| && a < |hosts| && b < |hosts|
  {
    var p, q := s.procs[a], s.procs[b];
    && Got(hosts, a, b, q) <= Sent(hosts, a, b, p) <= |Script(hosts, a, b, p)|
    && Queue(s.chan, a, b) == Script(hosts, a, b, p)[Got(hosts, a, b, q)..Sent(hosts, a, b, p)]
  }

  // The ring places that rank l, now p, has been told are those on the list of its root,
  // now q.
  ghost predicate PlacesAre(hosts: seq<Host>, l: nat, p: Proc, q: Proc)
    requires l < |hosts|
  {
    !IsRoot(hosts, l) ==>
      && (RingGot(p) >= 4 ==> Ringing(q) && Number(p.intraLeft) == RingMsg(q, Index(q.ranks, l), 3).body)
      && (RingGot(p) >= 5 ==> Number(p.intraRight) == RingMsg(q, Index(q.ranks, l), 4).body)
  }

  ghost predicate PlacesOk(hosts: seq<Host>, s: State, l: nat)
    requires |s.procs| == |hosts| && l < |hosts|
  {
    PlacesAre(hosts, l, s.procs[l], s.procs[Root(hosts, l)])
  }

  ghost predicate Invariant(hosts: seq<Host>, s: State) {
    && |s.procs| == |hosts| >= 2
    && (forall r | 0 <= r < |hosts| :: LocalOk(hosts, r, s.procs[r]))
    && (forall a, b | 0 <= a < |hosts| && 0 <= b < |hosts| :: ChannelOk(hosts, s, a, b))
    && (forall l | 0 <= l < |hosts| :: PlacesOk(hosts, s, l))
  }

  // ---- a step changes one rank and one channel ------------------------------------------

  // Rank r going from p to p' has sent (or received) one more message on the channel to
  // (or from) rank b when b is the peer d, and nothing otherwise.
  ghost predicate SentTo(hosts: seq<Host>, r: nat, p: Proc, p': Proc, d: nat, b: nat)
    requires r < |hosts| && b < |hosts|
  {
    && Script(hosts, r, b, p) <= Script(hosts, r, b, p')
    && Sent(hosts, r, b, p') == Sent(hosts, r, b, p) + (if b == d then 1 else 0) <= |Script(hosts, r, b, p')|
    && Got(hosts, b, r, p') == Got(hosts, b, r, p)
  }

  ghost predicate ReceivedFrom(hosts: seq<Host>, r: nat, p: Proc, p': Proc, d: nat, b: nat)
    requires r < |hosts| && b < |hosts|
  {
    && Script(hosts, r, b, p) <= Script(hosts, r, b, p')
    && Sent(hosts, r, b, p') == Sent(hosts, r, b, p)
    && Got(hosts, b, r, p') == Got(hosts, b, r, p) + (if b == d then 1 else 0)
  }

  ghost predicate SendFacts(hosts: seq<Host>, r: nat, p: Proc, p': Proc, d: nat, msg: Msg)
    requires r < |hosts|
  {
    && d < |hosts| && d != r
    && (forall b | 0 <= b < |hosts| :: SentTo(hosts, r, p, p', d, b))
    && Sent(hosts, r, d, p) < |Script(hosts, r, d, p')|
    && Script(hosts, r, d, p')[Sent(hosts, r, d, p)] == msg
  }

  ghost predicate ReceiveFacts(hosts: seq<Host>, r: nat, p: Proc, p': Proc, d: nat)
    requires r < |hosts|
  {
    d < |hosts| && d != r && forall b | 0 <= b < |hosts| :: ReceivedFrom(hosts, r, p, p', d, b)
  }

  ghost predicate ChannelsOk(hosts: seq<Host>, s: State) {
    && |s.procs| == |hosts|
    && forall a, b | 0 <= a < |hosts| && 0 <= b < |hosts| :: ChannelOk(hosts, s, a, b)
  }

  lemma SendKeepsChannels(hosts: seq<Host>, s: State, r: nat, p': Proc, d: nat, msg: Msg)
    requires ChannelsOk(hosts, s) && r < |hosts| && SendFacts(hosts, r, s.procs[r], p', d, msg)
    ensures ChannelsOk(hosts, State(s.procs[r := p'], Send(s.chan, r, d, msg)))
  {
    hide Script, Sent, Got;
    var s' := State(s.procs[r := p'], Send(s.chan, r, d, msg));
    forall a, b | 0 <= a < |hosts| && 0 <= b < |hosts|
      ensures ChannelOk(hosts, s', a, b)
    {
      assert ChannelOk(hosts, s, a, b);
      assert a == r ==> SentTo(hosts, r, s.procs[r], p', d, b);
      assert b == r ==> SentTo(hosts, r, s.procs[r], p', d, a);
      assert Queue(s'.chan, a, b) == if a == r && b == d then Queue(s.chan, a, b) + [msg] else Queue(s.chan, a, b);
    }
  }

  lemma ReceiveKeepsChannels(hosts: seq<Host>, s: State, r: nat, p': Proc, a0: nat, tag: int)
    requires ChannelsOk(hosts, s) && r < |hosts| && ReceiveFacts(hosts, r, s.procs[r], p', a0)
    requires Queue(s.chan, a0, r) != [] && Match(Queue(s.chan, a0, r), tag) == 0
    ensures ChannelsOk(hosts, State(s.procs[r := p'], Receive(s.chan, a0, r, tag)))
  {
    hide Script, Sent, Got, Match;
    var s' := State(s.procs[r := p'], Receive(s.chan, a0, r, tag));
    forall a, b | 0 <= a < |hosts| && 0 <= b < |hosts|
      ensures ChannelOk(hosts, s', a, b)
    {
      assert ChannelOk(hosts, s, a, b);
      assert a == r ==> ReceivedFrom(hosts, r, s.procs[r], p', a0, b);
      assert b == r ==> ReceivedFrom(hosts, r, s.procs[r], p', a0, a);
      assert Queue(s'.chan, a, b) == if a == a0 && b == r then Queue(s.chan, a, b)[1..] else Queue(s.chan, a, b);
    }
  }

  // The next message of a script a rank will receive.
  lemma Head(hosts: seq<Host>, s: State, a: nat, b: nat)
    requires ChannelsOk(hosts, s) && a < |hosts| && b < |hosts| && Queue(s.chan, a, b) != []
    ensures var k := Got(hosts, a, b, s.procs[b]);
      && k < Sent(hosts, a, b, s.procs[a]) <= |Script(hosts, a, b, s.procs[a])|
      && Queue(s.chan, a, b)[0] == Script(hosts, a, b, s.procs[a])[k]
  {
    hide Script, Sent, Got;
    assert ChannelOk(hosts, s, a, b);
  }
}
