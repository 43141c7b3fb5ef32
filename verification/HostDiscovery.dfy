// ipm_get_machtopo of src/ipm_mpi_machtopo.c as a state machine: every rank runs its own
// program, messages wait in channels, and any rank that can move may move next.
module HostDiscovery {
  import opened Topology
  import opened Messages

  // Where a rank stands.  Rank 0 gathers the host names of ranks 1, 2, ... in order and
  // answers each; then it sends every other root its size and neighbours.  Roots collect
  // the ranks of their host in whatever order they arrive and send each its ring places.
  datatype Pc =
    | SendName | RecvRoot
    | GatherName(i: nat) | ReplyRoot(i: nat, j: nat)
    | RecvSize | RecvLeft | RecvRight
    | SendTopo(j: nat, m: nat)
    | Collect | SendRank
    | SendRing(j: nat, m: nat) | RecvRing(m: nat)
    | Done

  datatype Proc = Proc(
    pc: Pc, tab: HostTab,
    intraRoot: int, intraSize: int, interLeft: int, interRight: int,
    intraLeft: int, intraRight: int,
    ranks: seq<nat>)

  datatype State = State(procs: seq<Proc>, chan: Channels)

  // What a rank does next: the peer and the message or tag.
  datatype Action = Sends(dest: nat, msg: Msg) | Receives(src: nat, tag: int) | Nothing

  function Nat(x: int): nat {
    if x < 0 then 0 else x
  }

  function At(s: seq<nat>, k: int): int {
    if 0 <= k < |s| then s[k] else -1
  }

  // The m-th of the five messages a root sends to its j-th local rank.
  function RingMsg(p: Proc, j: nat, m: nat): Msg {
    if m == 0 then Msg(1, Number(p.interLeft))
    else if m == 1 then Msg(2, Number(p.interRight))
    else if m == 2 then Msg(3, Number(p.intraSize))
    else if m == 3 then Msg(4, Number(At(p.ranks, j - 1)))
    else Msg(5, Number(if j == p.intraSize - 1 then At(p.ranks, 0) else At(p.ranks, j + 1)))
  }

  function LeftOf(roots: seq<nat>, j: nat): int {
    if j == 0 then At(roots, |roots| - 1) else At(roots, j - 1)
  }

  function RightOf(roots: seq<nat>, j: nat): int {
    if 0 < j == |roots| - 1 then At(roots, 0) else At(roots, j + 1)
  }

  // The m-th of the three messages rank 0 sends to the j-th root.
  function TopoMsg(tab: HostTab, j: nat, m: nat): Msg {
    Msg(0, Number(if m == 0 then At(tab.sizes, j) else if m == 1 then LeftOf(tab.roots, j) else RightOf(tab.roots, j)))
  }

  function Next(hosts: seq<Host>, r: nat, p: Proc, anySource: nat): Action
    requires r < |hosts|
  {
    match p.pc
    case SendName => Sends(0, Msg(r, Text(hosts[r])))
    case RecvRoot => Receives(0, ANY_TAG)
    case GatherName(i) => Receives(i, ANY_TAG)
    case ReplyRoot(i, j) => Sends(i, Msg(0, Number(At(p.tab.roots, j))))
    case RecvSize => Receives(0, ANY_TAG)
    case RecvLeft => Receives(0, ANY_TAG)
    case RecvRight => Receives(0, ANY_TAG)
    case SendTopo(j, m) => Sends(Nat(At(p.tab.roots, j)), TopoMsg(p.tab, j, m))
    case Collect => Receives(anySource, ANY_TAG)
    case SendRank => Sends(Nat(p.intraRoot), Msg(0, Number(r)))
    case SendRing(j, m) => Sends(Nat(At(p.ranks, j)), RingMsg(p, j, m))
    case RecvRing(m) => Receives(Nat(p.intraRoot), m + 1)
    case Done => Nothing
  }

  // A root that knows its host's size starts its list of local ranks.
  function StartCollect(r: nat, p: Proc, heap: int): Proc {
    Collected(p.(ranks := [r]), heap)
  }

  function Collected(p: Proc, heap: int): Proc {
    if |p.ranks| < p.intraSize then p.(pc := Collect)
    else if 1 < p.intraSize then p.(pc := SendRing(1, 0))
    else CloseRing(p, heap)
  }

  // A root's own places.  With a single local rank the right neighbour is read behind the
  // end of the list, so it can be anything.
  function CloseRing(p: Proc, heap: int): Proc {
    p.(pc := Done, intraLeft := At(p.ranks, p.intraSize - 1),
       intraRight := if 1 < |p.ranks| then p.ranks[1] else heap)
  }

  // Rank 0 once every other root has its neighbours.
  function Settle(p: Proc, heap: int): Proc {
    StartCollect(0, p.(intraSize := At(p.tab.sizes, 0), interLeft := LeftOf(p.tab.roots, 0),
                       interRight := At(p.tab.roots, 1)), heap)
  }

  function AfterSend(hosts: seq<Host>, r: nat, p: Proc, heap: int): Proc {
    match p.pc
    case SendName => p.(pc := RecvRoot)
    case ReplyRoot(i, j) =>
      if i + 1 < |hosts| then p.(pc := GatherName(i + 1))
      else if 1 < |p.tab.roots| then p.(pc := SendTopo(1, 0))
      else Settle(p, heap)
    case SendTopo(j, m) =>
      if m < 2 then p.(pc := SendTopo(j, m + 1))
      else if j + 1 < |p.tab.roots| then p.(pc := SendTopo(j + 1, 0))
      else Settle(p, heap)
    case SendRank => p.(pc := RecvRing(0))
    case SendRing(j, m) =>
      if m < 4 then p.(pc := SendRing(j, m + 1))
      else if j + 1 < p.intraSize then p.(pc := SendRing(j + 1, 0))
      else CloseRing(p, heap)
    case _ => p
  }

  function Value(msg: Msg): int {
    if msg.body.Number? then msg.body.value else -1
  }

  function NameIn(msg: Msg): Host {
    if msg.body.Text? then msg.body.text else ""
  }

  predicate TabOk(tab: HostTab) {
    |tab.names| == |tab.roots| == |tab.sizes|
  }

  function AfterReceive(hosts: seq<Host>, r: nat, p: Proc, msg: Msg, heap: int): Proc {
    match p.pc
    case RecvRoot =>
      var q := p.(intraRoot := Value(msg));
      if r == q.intraRoot then q.(pc := RecvSize) else q.(pc := SendRank)
    case GatherName(i) =>
      if TabOk(p.tab) then p.(tab := Enlist(p.tab, i, NameIn(msg)), pc := ReplyRoot(i, Find(p.tab.names, NameIn(msg))))
      else p
    case RecvSize => p.(intraSize := Value(msg), pc := RecvLeft)
    case RecvLeft => p.(interLeft := Value(msg), pc := RecvRight)
    case RecvRight => StartCollect(r, p.(interRight := Value(msg)), heap)
    case Collect => Collected(p.(ranks := p.ranks + [Nat(Value(msg))]), heap)
    case RecvRing(m) =>
      if m == 0 then p.(interLeft := Value(msg), pc := RecvRing(1))
      else if m == 1 then p.(interRight := Value(msg), pc := RecvRing(2))
      else if m == 2 then p.(intraSize := Value(msg), pc := RecvRing(3))
      else if m == 3 then p.(intraLeft := Value(msg), pc := RecvRing(4))
      else p.(intraRight := Value(msg), pc := Done)
    case _ => p
  }

  // Rank r can move; a receive from any source names the source it takes from.
  predicate Enabled(hosts: seq<Host>, s: State, r: nat, anySource: nat)
    requires |s.procs| == |hosts|
  {
    r < |hosts| && anySource < |hosts| &&
    match Next(hosts, r, s.procs[r], anySource)
    case Sends(d, msg) => true
    case Receives(a, tag) => CanReceive(s.chan, a, r, tag)
    case Nothing => false
  }

  function Step(hosts: seq<Host>, s: State, r: nat, anySource: nat, heap: int): State
    requires |s.procs| == |hosts| && Enabled(hosts, s, r, anySource)
  {
    var p := s.procs[r];
    match Next(hosts, r, p, anySource)
    case Sends(d, msg) => State(s.procs[r := AfterSend(hosts, r, p, heap)], Send(s.chan, r, d, msg))
    case Receives(a, tag) =>
      State(s.procs[r := AfterReceive(hosts, r, p, Received(s.chan, a, r, tag), heap)], Receive(s.chan, a, r, tag))
    case Nothing => s
  }

  // All ranks enter; task is zero-initialised, and rank 0 has entered itself in the table.
  // A job of one rank returns before the protocol starts.
  predicate Initial(hosts: seq<Host>, s: State)
    requires |hosts| >= 2
  {
    && |s.procs| == |hosts| && s.chan == map[]
    && s.procs[0].pc == GatherName(1) && s.procs[0].tab == TabOf(hosts, 1) && s.procs[0].intraRoot == 0
    && forall r | 1 <= r < |hosts| :: s.procs[r].pc == SendName
  }
}
