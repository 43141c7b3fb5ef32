// Whole runs of host discovery: every run ends, and it ends with every rank knowing its
// root, the size of its host, and its places on the two rings.
module Discovery {
  import opened Finite
  import opened Topology
  import opened Messages
  import opened HostDiscovery
  import opened DiscoveryInvariant
  import opened DiscoverySteps
  import opened DiscoverySafety
  import opened DiscoveryProgress

  // One entry of a schedule: the rank that moves, whom a receive from anybody takes from,
  // and what happens to lie behind the list of local ranks.
  datatype Move = Move(rank: nat, source: nat, heap: int)

  predicate Legal(hosts: seq<Host>, s: State, moves: seq<Move>)
    requires |s.procs| == |hosts|
    decreases |moves|
  {
    moves == [] ||
    (Enabled(hosts, s, moves[0].rank, moves[0].source)
     && Legal(hosts, Step(hosts, s, moves[0].rank, moves[0].source, moves[0].heap), moves[1..]))
  }

  function Run(hosts: seq<Host>, s: State, moves: seq<Move>): (s': State)
    requires |s.procs| == |hosts| && Legal(hosts, s, moves)
    ensures |s'.procs| == |hosts|
    decreases |moves|
  {
    if moves == [] then s
    else Run(hosts, Step(hosts, s, moves[0].rank, moves[0].source, moves[0].heap), moves[1..])
  }

  // ---- how many moves are left ----------------------------------------------------------------

  function RingLeft(size: int, p: Proc): int {
    match p.pc
    case Collect => size - |p.ranks| + 5 * (size - 1)
    case SendRing(j, m) => 5 * (size - j) - m
    case _ => 0
  }

  ghost function MovesLeft(hosts: seq<Host>, r: nat, p: Proc): int
    requires r < |hosts|
  {
    var size, others := Population(hosts, r), |Roots(hosts)| - 1;
    if r == 0 then
      match p.pc
      case GatherName(i) => 2 * (|hosts| - i) + 3 * others + 6 * (size - 1)
      case ReplyRoot(i, _) => 2 * (|hosts| - i) - 1 + 3 * others + 6 * (size - 1)
      case SendTopo(j, m) => 3 * (others + 1 - j) - m + 6 * (size - 1)
      case _ => RingLeft(size, p)
    else if IsRoot(hosts, r) then
      match p.pc
      case SendName => 5 + 6 * (size - 1)
      case RecvRoot => 4 + 6 * (size - 1)
      case RecvSize => 3 + 6 * (size - 1)
      case RecvLeft => 2 + 6 * (size - 1)
      case RecvRight => 1 + 6 * (size - 1)
      case _ => RingLeft(size, p)
    else
      match p.pc
      case SendName => 8
      case RecvRoot => 7
      case SendRank => 6
      case RecvRing(m) => 5 - m
      case _ => 0
  }

  lemma StartLeft(hosts: seq<Host>, r: nat, p: Proc)
    requires r < |hosts| && RootOk(hosts, r, p) && p.ranks == [r] && (p.pc.Collect? || p.pc.Done?)
    ensures RingLeft(Population(hosts, r), p) == 6 * (Population(hosts, r) - 1)
  {
    hide Root, TabOf, Population, RootLeft, RootRight, RanksOk;
  }

  lemma SettleLeft(hosts: seq<Host>, p: Proc, heap: int)
    requires |hosts| >= 2 && p.tab == TabOf(hosts, |hosts|) && p.intraRoot == 0
    ensures MovesLeft(hosts, 0, Settle(p, heap)) == 6 * (Population(hosts, 0) - 1)
    ensures p.tab.roots == Roots(hosts) && |Roots(hosts)| >= 1
  {
    hide Root, TabOf, Population, RootLeft, RootRight, RanksOk, Settle, RingLeft;
    RootZero(hosts);
    SettledOk(hosts, p, heap);
    StartLeft(hosts, 0, Settle(p, heap));
  }

  lemma ReplyLeft(hosts: seq<Host>, p: Proc, heap: int)
    requires |hosts| >= 2 && LocalOk(hosts, 0, p) && p.pc.ReplyRoot?
    ensures MovesLeft(hosts, 0, AfterSend(hosts, 0, p, heap)) == MovesLeft(hosts, 0, p) - 1
  {
    hide Root, TabOf, Population, RootOk, Settle, RingLeft, AfterSend;
    AfterReply(hosts, p, heap);
    if p.pc.i + 1 == |hosts| {
      SettleLeft(hosts, p, heap);
    }
  }

  lemma TopoLeft(hosts: seq<Host>, p: Proc, heap: int)
    requires |hosts| >= 2 && LocalOk(hosts, 0, p) && p.pc.SendTopo?
    ensures MovesLeft(hosts, 0, AfterSend(hosts, 0, p, heap)) == MovesLeft(hosts, 0, p) - 1
  {
    hide Root, TabOf, Population, RootOk, Settle, RingLeft, AfterSend;
    AfterTopo(hosts, p, heap);
    SettleLeft(hosts, p, heap);
  }

  lemma SendLeft(hosts: seq<Host>, r: nat, p: Proc, heap: int)
    requires |hosts| >= 2 && r < |hosts| && LocalOk(hosts, r, p) && Next(hosts, r, p, 0).Sends?
    ensures MovesLeft(hosts, r, AfterSend(hosts, r, p, heap)) == MovesLeft(hosts, r, p) - 1
  {
    hide Root, TabOf, Population, RanksOk, RootLeft, RootRight, Settle, CloseRing, MovesLeft, AfterSend;
    match p.pc
    case SendName => OwnLeft(hosts, r, p, heap);
    case ReplyRoot(_, _) => ReplyLeft(hosts, p, heap);
    case SendTopo(_, _) => TopoLeft(hosts, p, heap);
    case SendRank => OwnLeft(hosts, r, p, heap);
    case SendRing(_, _) => RingMovesLeft(hosts, r, p, heap);
  }

  lemma OwnLeft(hosts: seq<Host>, r: nat, p: Proc, heap: int)
    requires |hosts| >= 2 && r < |hosts| && LocalOk(hosts, r, p) && (p.pc.SendName? || p.pc.SendRank?)
    ensures MovesLeft(hosts, r, AfterSend(hosts, r, p, heap)) == MovesLeft(hosts, r, p) - 1
  {
    hide Root, TabOf, Population, RanksOk, RootLeft, RootRight, Settle, CloseRing;
    RootZero(hosts);
  }

  lemma RingMovesLeft(hosts: seq<Host>, r: nat, p: Proc, heap: int)
    requires |hosts| >= 2 && r < |hosts| && LocalOk(hosts, r, p) && p.pc.SendRing?
    ensures MovesLeft(hosts, r, AfterSend(hosts, r, p, heap)) == MovesLeft(hosts, r, p) - 1
  {
    hide Root, TabOf, Population, RanksOk, RootLeft, RootRight, Settle, AfterSend;
    RootZero(hosts);
    SameRing(hosts, r, p, heap, 0);
  }

  // ---- receives -------------------------------------------------------------------------------

  lemma ReceiveLeft(hosts: seq<Host>, s: State, r: nat, anySource: nat, a: nat, tag: int, heap: int)
    requires Invariant(hosts, s) && r < |hosts| && anySource < |hosts|
    requires Next(hosts, r, s.procs[r], anySource) == Receives(a, tag) && CanReceive(s.chan, a, r, tag)
    ensures MovesLeft(hosts, r, AfterReceive(hosts, r, s.procs[r], Received(s.chan, a, r, tag), heap))
         == MovesLeft(hosts, r, s.procs[r]) - 1
  {
    hide Root, TabOf, ChannelOk, PlacesOk, ReceiveFacts, CanReceive, Match, AfterReceive, MovesLeft,
      LocalOk, PlacesAre;
    ReceiveMoves(hosts, s, r, anySource, a, tag, heap);
    var p, msg := s.procs[r], Queue(s.chan, a, r)[0];
    assert LocalOk(hosts, r, p);
    StepLeft(hosts, r, p, msg, heap);
  }

  lemma StepLeft(hosts: seq<Host>, r: nat, p: Proc, msg: Msg, heap: int)
    requires |hosts| >= 2 && r < |hosts| && LocalOk(hosts, r, p) && Next(hosts, r, p, 0).Receives?
    requires LocalOk(hosts, r, AfterReceive(hosts, r, p, msg, heap))
    ensures MovesLeft(hosts, r, AfterReceive(hosts, r, p, msg, heap)) == MovesLeft(hosts, r, p) - 1
  {
    hide Root, LocalOk, AfterReceive, MovesLeft, Next;
    RootZero(hosts);
    if r == 0 {
      ZeroStepLeft(hosts, r, p, msg, heap);
    } else if IsRoot(hosts, r) {
      RootStepLeft(hosts, r, p, msg, heap);
    } else {
      LeafStepLeft(hosts, r, p, msg, heap);
    }
  }

  lemma ZeroStepLeft(hosts: seq<Host>, r: nat, p: Proc, msg: Msg, heap: int)
    requires |hosts| >= 2 && r < |hosts| && LocalOk(hosts, r, p) && Next(hosts, r, p, 0).Receives?
    requires LocalOk(hosts, r, AfterReceive(hosts, r, p, msg, heap))
    requires r == 0
    ensures MovesLeft(hosts, r, AfterReceive(hosts, r, p, msg, heap)) == MovesLeft(hosts, r, p) - 1
  {
    hide Root, TabOf, Population, RanksOk, RootLeft, RootRight, Enlist, Find;
    RootZero(hosts);
  }

  lemma RootStepLeft(hosts: seq<Host>, r: nat, p: Proc, msg: Msg, heap: int)
    requires |hosts| >= 2 && r < |hosts| && LocalOk(hosts, r, p) && Next(hosts, r, p, 0).Receives?
    requires LocalOk(hosts, r, AfterReceive(hosts, r, p, msg, heap))
    requires r > 0 && IsRoot(hosts, r)
    ensures MovesLeft(hosts, r, AfterReceive(hosts, r, p, msg, heap)) == MovesLeft(hosts, r, p) - 1
  {
    hide Root, TabOf, Population, RanksOk, RootLeft, RootRight, Enlist, Find;
  }

  lemma LeafStepLeft(hosts: seq<Host>, r: nat, p: Proc, msg: Msg, heap: int)
    requires |hosts| >= 2 && r < |hosts| && LocalOk(hosts, r, p) && Next(hosts, r, p, 0).Receives?
    requires LocalOk(hosts, r, AfterReceive(hosts, r, p, msg, heap))
    requires r > 0 && !IsRoot(hosts, r)
    ensures MovesLeft(hosts, r, AfterReceive(hosts, r, p, msg, heap)) == MovesLeft(hosts, r, p) - 1
  {
    hide Root, TabOf, Population, RanksOk, RootLeft, RootRight, Enlist, Find, StartCollect, Collected;
  }

  // ---- whole runs -----------------------------------------------------------------------------

  ghost function TotalLeft(hosts: seq<Host>, procs: seq<Proc>, n: nat): int
    requires n <= |procs| == |hosts|
  {
    if n == 0 then 0 else TotalLeft(hosts, procs, n - 1) + MovesLeft(hosts, n - 1, procs[n - 1])
  }

  lemma {:induction false} TotalChanges(hosts: seq<Host>, procs: seq<Proc>, n: nat, r: nat, p': Proc)
    requires n <= |procs| == |hosts| && r < |procs|
    ensures TotalLeft(hosts, procs[r := p'], n)
         == TotalLeft(hosts, procs, n) + (if r < n then MovesLeft(hosts, r, p') - MovesLeft(hosts, r, procs[r]) else 0)
  {
    hide MovesLeft;
    if n > 0 {
      TotalChanges(hosts, procs, n - 1, r, p');
    }
  }

  lemma StepTotal(hosts: seq<Host>, s: State, r: nat, anySource: nat, heap: int)
    requires Invariant(hosts, s) && Enabled(hosts, s, r, anySource)
    ensures TotalLeft(hosts, Step(hosts, s, r, anySource, heap).procs, |hosts|)
         == TotalLeft(hosts, s.procs, |hosts|) - 1
  {
    hide LocalOk, ChannelOk, PlacesOk, AfterSend, AfterReceive, Send, Receive, MovesLeft, CanReceive, Next, TotalLeft;
    var p := s.procs[r];
    match Next(hosts, r, p, anySource)
    case Sends(d, msg) =>
      SameSend(hosts, r, p, anySource);
      assert LocalOk(hosts, r, p);
      SendLeft(hosts, r, p, heap);
      TotalChanges(hosts, s.procs, |hosts|, r, AfterSend(hosts, r, p, heap));
    case Receives(a, tag) =>
      ReceiveLeft(hosts, s, r, anySource, a, tag, heap);
      TotalChanges(hosts, s.procs, |hosts|, r, AfterReceive(hosts, r, p, Received(s.chan, a, r, tag), heap));
  }

  lemma {:induction false} DoneLeft(hosts: seq<Host>, s: State, n: nat)
    requires Invariant(hosts, s) && n <= |hosts|
    ensures TotalLeft(hosts, s.procs, n) >= 0
    ensures (forall r | 0 <= r < n :: s.procs[r].pc.Done?) ==> TotalLeft(hosts, s.procs, n) == 0
  {
    hide LocalOk, ChannelOk, PlacesOk, MovesLeft;
    if n > 0 {
      DoneLeft(hosts, s, n - 1);
      assert LocalOk(hosts, n - 1, s.procs[n - 1]);
      SomeLeft(hosts, n - 1, s.procs[n - 1]);
    }
  }

  lemma SomeLeft(hosts: seq<Host>, r: nat, p: Proc)
    requires |hosts| >= 2 && r < |hosts| && LocalOk(hosts, r, p)
    ensures MovesLeft(hosts, r, p) >= 0
    ensures p.pc.Done? ==> MovesLeft(hosts, r, p) == 0
  {
    hide Root, TabOf, RootLeft, RootRight, Population;
    RootZero(hosts);
    if IsRoot(hosts, r) {
      RanksCount(hosts, r, [r]);
    }
  }

  // Every state of every run keeps the invariant, and the moves made and the moves left
  // always add up to the same number.
  lemma {:induction false} RunKeeps(hosts: seq<Host>, s: State, moves: seq<Move>)
    requires Invariant(hosts, s) && Legal(hosts, s, moves)
    ensures Invariant(hosts, Run(hosts, s, moves))
    ensures |moves| + TotalLeft(hosts, Run(hosts, s, moves).procs, |hosts|) == TotalLeft(hosts, s.procs, |hosts|)
    decreases |moves|
  {
    hide LocalOk, ChannelOk, PlacesOk, Enabled, Step, TotalLeft;
    if moves != [] {
      var m := moves[0];
      StepKeeps(hosts, s, m.rank, m.source, m.heap);
      StepTotal(hosts, s, m.rank, m.source, m.heap);
      RunKeeps(hosts, Step(hosts, s, m.rank, m.source, m.heap), moves[1..]);
    }
  }

  // ---- what is known at the end -----------------------------------------------------------------

  // right and left describe one cycle through the whole of list, in its order.
  ghost predicate Cycle(list: seq<nat>, right: int -> int, left: int -> int) {
    && Distinct(list)
    && (forall k | 0 <= k < |list| - 1 :: right(list[k]) == list[k + 1] && left(list[k + 1]) == list[k])
    && (list != [] ==> right(list[|list| - 1]) == list[0] && left(list[0]) == list[|list| - 1])
  }

  // The ranks of root r's host as r has listed them.
  ghost predicate ListsHost(hosts: seq<Host>, r: nat, list: seq<nat>)
    requires r < |hosts|
  {
    list != [] && list[0] == r && forall x: nat :: x in list <==> x < |hosts| && Root(hosts, x) == r
  }

  ghost predicate Discovered(hosts: seq<Host>, s: State)
    requires |s.procs| == |hosts| > 0
  {
    // everybody knows the smallest rank of its host, and how many ranks share the host
    && (forall r | 0 <= r < |hosts| ::
          s.procs[r].intraRoot == Root(hosts, r) && s.procs[r].intraSize == Population(hosts, r))
    // the ranks of a host form a ring
    && (forall r | 0 <= r < |hosts| && IsRoot(hosts, r) ::
          && ListsHost(hosts, r, s.procs[r].ranks)
          && (Population(hosts, r) >= 2 ==> Cycle(s.procs[r].ranks, IntraRight(s), IntraLeft(s))))
    // the roots form a ring, and everybody knows its root's neighbours
    && (|Roots(hosts)| >= 2 ==> Cycle(Roots(hosts), InterRight(s), InterLeft(s)))
    && (forall r | 0 <= r < |hosts| ::
          && s.procs[r].interLeft == s.procs[Root(hosts, r)].interLeft
          && s.procs[r].interRight == s.procs[Root(hosts, r)].interRight)
    // nothing is left in flight
    && (forall a: nat, b: nat | a < |hosts| && b < |hosts| :: Queue(s.chan, a, b) == [])
  }

  function IntraRight(s: State): int -> int {
    r => if 0 <= r < |s.procs| then s.procs[r].intraRight else -1
  }

  function IntraLeft(s: State): int -> int {
    r => if 0 <= r < |s.procs| then s.procs[r].intraLeft else -1
  }

  function InterRight(s: State): int -> int {
    r => if 0 <= r < |s.procs| then s.procs[r].interRight else -1
  }

  function InterLeft(s: State): int -> int {
    r => if 0 <= r < |s.procs| then s.procs[r].interLeft else -1
  }

  ghost predicate AllDone(hosts: seq<Host>, s: State) {
    |s.procs| == |hosts| && forall r | 0 <= r < |hosts| :: s.procs[r].pc.Done?
  }

  lemma SamePopulation(hosts: seq<Host>, r: nat)
    requires r < |hosts|
    ensures Population(hosts, r) == Population(hosts, Root(hosts, r))
  {
    assert OnHost(hosts, r, |hosts|) == OnHost(hosts, Root(hosts, r), |hosts|);
  }

  lemma DoneKnows(hosts: seq<Host>, s: State, r: nat)
    requires Invariant(hosts, s) && AllDone(hosts, s) && r < |hosts|
    ensures s.procs[r].intraRoot == Root(hosts, r) && s.procs[r].intraSize == Population(hosts, r)
    ensures s.procs[r].interLeft == RootLeft(hosts, Root(hosts, r))
    ensures s.procs[r].interRight == RootRight(hosts, Root(hosts, r))
  {
    hide Root, TabOf, RanksOk, RootLeft, RootRight, Population, ChannelOk, PlacesOk;
    assert LocalOk(hosts, r, s.procs[r]);
    RootZero(hosts);
    SamePopulation(hosts, r);
  }

  lemma DoneLists(hosts: seq<Host>, s: State, r: nat)
    requires Invariant(hosts, s) && AllDone(hosts, s) && r < |hosts| && IsRoot(hosts, r)
    ensures ListsHost(hosts, r, s.procs[r].ranks) && Distinct(s.procs[r].ranks)
    ensures |s.procs[r].ranks| == Population(hosts, r) == s.procs[r].intraSize
    ensures s.procs[r].intraLeft == s.procs[r].ranks[|s.procs[r].ranks| - 1]
    ensures Population(hosts, r) >= 2 ==> s.procs[r].intraRight == s.procs[r].ranks[1]
  {
    hide Root, TabOf, RootLeft, RootRight, Population, ChannelOk, PlacesOk;
    assert LocalOk(hosts, r, s.procs[r]);
    RootZero(hosts);
    RanksCount(hosts, r, s.procs[r].ranks);
  }

  // The k-th rank of a host has been told its neighbours on the list.
  lemma DonePlace(hosts: seq<Host>, s: State, r: nat, k: nat)
    requires Invariant(hosts, s) && AllDone(hosts, s) && r < |hosts| && IsRoot(hosts, r)
    requires 1 <= k < |s.procs[r].ranks|
    ensures var list := s.procs[r].ranks;
      && list[k] < |hosts|
      && s.procs[list[k]].intraLeft == list[k - 1]
      && s.procs[list[k]].intraRight == (if k == |list| - 1 then list[0] else list[k + 1])
  {
    hide Root, TabOf, RootLeft, RootRight, Population, ChannelOk, LocalOk;
    DoneLists(hosts, s, r);
    var list := s.procs[r].ranks;
    assert list[k] in list;
    assert PlacesOk(hosts, s, list[k]);
    IndexOf(list, k);
  }

  lemma IntraCycle(hosts: seq<Host>, s: State, r: nat)
    requires Invariant(hosts, s) && AllDone(hosts, s) && r < |hosts| && IsRoot(hosts, r) && Population(hosts, r) >= 2
    ensures Cycle(s.procs[r].ranks, IntraRight(s), IntraLeft(s))
  {
    hide Root, Population, AllDone, LocalOk, ChannelOk, PlacesOk;
    DoneLists(hosts, s, r);
    var list := s.procs[r].ranks;
    DonePlace(hosts, s, r, |list| - 1);
    forall k | 0 <= k < |list| - 1
      ensures IntraRight(s)(list[k]) == list[k + 1] && IntraLeft(s)(list[k + 1]) == list[k]
    {
      DonePlace(hosts, s, r, k + 1);
      if k > 0 {
        DonePlace(hosts, s, r, k);
      }
    }
  }

  lemma DoneRoot(hosts: seq<Host>, s: State, k: nat)
    requires Invariant(hosts, s) && AllDone(hosts, s) && k < |Roots(hosts)| && |Roots(hosts)| >= 2
    ensures var roots := Roots(hosts);
      && roots[k] < |hosts|
      && s.procs[roots[k]].interRight == roots[if k == |roots| - 1 then 0 else k + 1]
      && s.procs[roots[k]].interLeft == roots[if k == 0 then |roots| - 1 else k - 1]
  {
    hide Root, TabOf, LocalOk, ChannelOk, PlacesOk, AllDone, Population, Index;
    RowOfIndex(hosts, k);
    DoneKnows(hosts, s, Roots(hosts)[k]);
  }

  lemma RootsDistinct(hosts: seq<Host>)
    requires |hosts| > 0
    ensures Distinct(Roots(hosts))
  {
    hide Root, TabOf;
    TabDescribes(hosts, |hosts|);
  }

  lemma InterCycle(hosts: seq<Host>, s: State)
    requires Invariant(hosts, s) && AllDone(hosts, s) && |Roots(hosts)| >= 2
    ensures Cycle(Roots(hosts), InterRight(s), InterLeft(s))
  {
    hide Root, LocalOk, ChannelOk, PlacesOk, AllDone, Roots;
    var roots := Roots(hosts);
    RootsDistinct(hosts);
    DoneRoot(hosts, s, |roots| - 1);
    DoneRoot(hosts, s, 0);
    forall k | 0 <= k < |roots| - 1
      ensures InterRight(s)(roots[k]) == roots[k + 1] && InterLeft(s)(roots[k + 1]) == roots[k]
    {
      DoneRoot(hosts, s, k);
      DoneRoot(hosts, s, k + 1);
    }
  }

  lemma NothingInFlight(hosts: seq<Host>, s: State, a: nat, b: nat)
    requires Invariant(hosts, s) && AllDone(hosts, s) && a < |hosts| && b < |hosts|
    ensures Queue(s.chan, a, b) == []
  {
    hide Root, TabOf, LocalOk, PlacesOk, ChannelOk, Script, Queue, Index, Sent, Got;
    Waiting(hosts, s, a, b);
    RootIdempotent(hosts, a);
    RootIdempotent(hosts, b);
    RootZero(hosts);
    AllRead(hosts, s, a, b);
  }

  lemma AllRead(hosts: seq<Host>, s: State, a: nat, b: nat)
    requires Invariant(hosts, s) && AllDone(hosts, s) && a < |hosts| && b < |hosts|
    ensures Got(hosts, a, b, s.procs[b]) >= Sent(hosts, a, b, s.procs[a])
  {
    hide Root, TabOf, LocalOk, PlacesOk, ChannelOk, Script, Queue, Index;
    RootIdempotent(hosts, a);
    RootIdempotent(hosts, b);
    RootZero(hosts);
    if IsRoot(hosts, b) && Root(hosts, a) == b {
      DoneLists(hosts, s, b);
    }
  }

  lemma AllDiscovered(hosts: seq<Host>, s: State)
    requires Invariant(hosts, s) && AllDone(hosts, s)
    ensures Discovered(hosts, s)
  {
    hide Root, TabOf, Cycle, Population, ListsHost, Queue, Roots;
    hide RootLeft, RootRight, AllDone, LocalOk, ChannelOk, PlacesOk;
    forall r | 0 <= r < |hosts| && IsRoot(hosts, r)
      ensures ListsHost(hosts, r, s.procs[r].ranks)
      ensures Population(hosts, r) >= 2 ==> Cycle(s.procs[r].ranks, IntraRight(s), IntraLeft(s))
    {
      DoneLists(hosts, s, r);
      if Population(hosts, r) >= 2 {
        IntraCycle(hosts, s, r);
      }
    }
    if |Roots(hosts)| >= 2 {
      InterCycle(hosts, s);
    }
    forall r: nat | r < |hosts|
      ensures s.procs[r].intraRoot == Root(hosts, r) && s.procs[r].intraSize == Population(hosts, r)
      ensures s.procs[r].interLeft == s.procs[Root(hosts, r)].interLeft
      ensures s.procs[r].interRight == s.procs[Root(hosts, r)].interRight
    {
      DoneKnows(hosts, s, r);
      RootIdempotent(hosts, r);
      DoneKnows(hosts, s, Root(hosts, r));
    }
    forall a: nat, b: nat | a < |hosts| && b < |hosts|
      ensures Queue(s.chan, a, b) == []
    {
      NothingInFlight(hosts, s, a, b);
    }
  }

  // Every run of host discovery can be continued until everybody is done, even if sends wait
  // for their receivers; all complete runs have the same length; and each ends with every
  // rank knowing its root, its host's size, and its places on both rings.
  lemma EveryRunDiscovers(hosts: seq<Host>, s: State, moves: seq<Move>)
    requires |hosts| >= 2 && Initial(hosts, s) && Legal(hosts, s, moves)
    ensures |moves| <= TotalLeft(hosts, s.procs, |hosts|)
    ensures var e := Run(hosts, s, moves);
      if AllDone(hosts, e)
      then Discovered(hosts, e) && |moves| == TotalLeft(hosts, s.procs, |hosts|)
      else exists r, anySource :: Ready(hosts, e, r, anySource)
  {
    hide LocalOk, ChannelOk, PlacesOk, Initial, Legal, Run, Ready, Discovered, TotalLeft;
    InitialOk(hosts, s);
    RunKeeps(hosts, s, moves);
    var e := Run(hosts, s, moves);
    DoneLeft(hosts, e, |hosts|);
    if AllDone(hosts, e) {
      AllDiscovered(hosts, e);
    } else {
      var q :| 0 <= q < |hosts| && !e.procs[q].pc.Done?;
      var r, anySource := Progress(hosts, e, q);
      assert Ready(hosts, e, r, anySource);
    }
  }

  // In terms of the names: after a complete run every rank knows the first rank of its own
  // name and how many ranks have that name, and that first rank has listed them.
  lemma EveryRunGroups(hosts: seq<Host>, s: State, moves: seq<Move>)
    requires |hosts| >= 2 && Initial(hosts, s) && Legal(hosts, s, moves) && AllDone(hosts, Run(hosts, s, moves))
    requires forall r | 0 <= r < |hosts| :: |hosts[r]| <= 25
    ensures forall r | 0 <= r < |hosts| :: KnowsGroup(hosts, Run(hosts, s, moves), r)
  {
    hide Legal, Run, TotalLeft, Discovered, KnowsGroup;
    EveryRunDiscovers(hosts, s, moves);
    forall r | 0 <= r < |hosts|
      ensures KnowsGroup(hosts, Run(hosts, s, moves), r)
    {
      GroupOf(hosts, Run(hosts, s, moves), r);
    }
  }

  ghost predicate KnowsGroup(hosts: seq<Host>, s: State, r: nat)
    requires r < |hosts|
  {
    && |s.procs| == |hosts|
    && var p := s.procs[r];
       && 0 <= p.intraRoot < |hosts| && hosts[p.intraRoot] == hosts[r]
       && (forall q: nat | q < p.intraRoot :: hosts[q] != hosts[r])
       && p.intraSize == |Named(hosts, hosts[r])|
       && (p.intraRoot == r ==> forall x: nat :: x in p.ranks <==> x in Named(hosts, hosts[r]))
  }

  lemma GroupOf(hosts: seq<Host>, s: State, r: nat)
    requires |s.procs| == |hosts| > 0 && Discovered(hosts, s) && NamesFit(hosts) && r < |hosts|
    ensures KnowsGroup(hosts, s, r)
  {
    hide Root, Population, Cycle, Queue, Roots;
    RootByName(hosts, r);
  }

  // left undoes right on a cycle.
  lemma CycleInverse(list: seq<nat>, right: int -> int, left: int -> int, x: nat)
    requires Cycle(list, right, left) && x in list
    ensures right(x) >= 0 && right(x) in list && left(right(x)) == x
    ensures left(x) >= 0 && left(x) in list && right(left(x)) == x
  {
    var k :| 0 <= k < |list| && list[k] == x;
    if k < |list| - 1 {
      assert right(list[k]) == list[k + 1] && left(list[k + 1]) == list[k];
    }
    if k > 0 {
      assert right(list[k - 1]) == list[k - 1 + 1] && left(list[k - 1 + 1]) == list[k - 1];
    }
  }
}
