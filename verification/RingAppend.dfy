// Appending every host's temporary files to one log: a ring barrier inside each host, then
// a token passed from root to root (src/ipm_mpi_log.c, src/ipm_mpi_trace.c and
// src/checkpoints/ipm_chkpt_log.c run the same sequence).
module RingAppend {
  import opened Finite

  // What host discovery left in each rank's task record, and in job.nhosts.
  datatype Net = Net(
    intraRoot: seq<nat>, intraSize: seq<nat>, intraLeft: seq<int>, intraRight: seq<int>,
    interLeft: seq<int>, interRight: seq<int>, nhosts: nat)

  function Succ(k: nat, n: nat): nat {
    if k + 1 < n then k + 1 else 0
  }

  ghost predicate SameLengths(net: Net) {
    && |net.intraRoot| == |net.intraSize| == |net.intraLeft| == |net.intraRight|
    && |net.intraRoot| == |net.interLeft| == |net.interRight|
  }

  ghost predicate HostRing(net: Net, r: nat, list: seq<nat>)
    requires SameLengths(net)
  {
    && list != [] && list[0] == r && Distinct(list)
    && (forall k | 0 <= k < |list| ::
          list[k] < |net.intraRoot| && net.intraRoot[list[k]] == r && net.intraSize[list[k]] == |list|)
    && (|list| >= 2 ==> forall k | 0 <= k < |list| ::
          net.intraRight[list[k]] == list[Succ(k, |list|)] && net.intraLeft[list[Succ(k, |list|)]] == list[k])
  }

  ghost predicate RootRing(net: Net, roots: seq<nat>)
    requires SameLengths(net)
  {
    && roots != [] && roots[0] == 0 && Distinct(roots) && net.nhosts == |roots|
    && (forall j | 0 <= j < |roots| :: roots[j] < |net.intraRoot| && net.intraRoot[roots[j]] == roots[j])
    && (|roots| >= 2 ==> forall j | 0 <= j < |roots| ::
          net.interRight[roots[j]] == roots[Succ(j, |roots|)] && net.interLeft[roots[Succ(j, |roots|)]] == roots[j])
  }

  // The hosts' ranks are in rings, and so are the roots.
  ghost predicate NetOk(net: Net, roots: seq<nat>, rings: seq<seq<nat>>) {
    && SameLengths(net) && |rings| == |net.intraRoot|
    && (forall x | 0 <= x < |rings| ::
          net.intraRoot[x] in roots && net.intraRoot[x] < |rings| && x in rings[net.intraRoot[x]])
    && (forall r | 0 <= r < |rings| && net.intraRoot[r] == r :: HostRing(net, r, rings[r]))
    && RootRing(net, roots)
  }

  // ---- the program of one rank ----------------------------------------------------------------

  datatype Pc = Writing | SendRight | RecvLeft | WaitToken | Appending | SendToken | Done

  // tmp holds the ranks whose temporary file is closed and not removed yet; log holds what
  // each append added.
  datatype State = State(pc: seq<Pc>, tokens: map<(nat, nat), nat>, tmp: set<nat>, log: seq<set<nat>>)

  predicate IsRoot(net: Net, x: nat)
    requires x < |net.intraRoot|
  {
    net.intraRoot[x] == x
  }

  function AfterClose(net: Net, x: nat): Pc
    requires x < |net.intraRoot| && x < |net.intraSize|
  {
    if net.intraSize[x] > 1 then (if IsRoot(net, x) then SendRight else RecvLeft) else AfterRing(net, x)
  }

  function AfterRing(net: Net, x: nat): Pc
    requires x < |net.intraRoot|
  {
    if !IsRoot(net, x) then Done else if net.nhosts > 1 && x != 0 then WaitToken else Appending
  }

  function AfterAppend(net: Net, x: nat): Pc
    requires x < |net.interRight|
  {
    if net.nhosts > 1 && net.interRight[x] != 0 then SendToken else Done
  }

  function Tokens(s: State, a: int, b: int): nat {
    if 0 <= a && 0 <= b && (a, b) in s.tokens then s.tokens[(a, b)] else 0
  }

  function Put(s: State, a: nat, b: int): map<(nat, nat), nat> {
    if b < 0 then s.tokens else s.tokens[(a, b) := Tokens(s, a, b) + 1]
  }

  function Take(s: State, a: int, b: nat): map<(nat, nat), nat>
    requires Tokens(s, a, b) > 0
  {
    s.tokens[(a, b) := Tokens(s, a, b) - 1]
  }

  // The files in /tmp of the host of root x.
  ghost function Host(net: Net, x: nat): set<nat> {
    set y: nat | y < |net.intraRoot| && net.intraRoot[y] == x
  }

  ghost predicate Enabled(net: Net, s: State, x: nat) {
    && SameLengths(net) && x < |s.pc| == |net.intraRoot| && s.pc[x] != Done
    && (s.pc[x] == RecvLeft ==> Tokens(s, net.intraLeft[x], x) > 0)
    && (s.pc[x] == WaitToken ==> Tokens(s, net.interLeft[x], x) > 0)
  }

  ghost function Step(net: Net, s: State, x: nat): State
    requires Enabled(net, s, x)
  {
    match s.pc[x]
    case Writing => s.(pc := s.pc[x := AfterClose(net, x)], tmp := s.tmp + {x})
    case SendRight =>
      s.(pc := s.pc[x := if IsRoot(net, x) then RecvLeft else AfterRing(net, x)],
         tokens := Put(s, x, net.intraRight[x]))
    case RecvLeft =>
      s.(pc := s.pc[x := if IsRoot(net, x) then AfterRing(net, x) else SendRight],
         tokens := Take(s, net.intraLeft[x], x))
    case WaitToken => s.(pc := s.pc[x := Appending], tokens := Take(s, net.interLeft[x], x))
    case Appending =>
      s.(pc := s.pc[x := AfterAppend(net, x)], log := s.log + [s.tmp * Host(net, x)], tmp := s.tmp - Host(net, x))
    case SendToken => s.(pc := s.pc[x := Done], tokens := Put(s, x, net.interRight[x]))
    case Done => s
  }

  ghost predicate Initial(net: Net, s: State) {
    && |s.pc| == |net.intraRoot| && (forall x | 0 <= x < |s.pc| :: s.pc[x] == Writing)
    && s.tokens == map[] && s.tmp == {} && s.log == []
  }

  // ---- the invariant --------------------------------------------------------------------------

  predicate PastSend(root: bool, pc: Pc) {
    if root then pc != Writing && pc != SendRight else pc == Done
  }

  predicate PastRecv(root: bool, pc: Pc) {
    if root then pc != Writing && pc != SendRight && pc != RecvLeft else pc == SendRight || pc == Done
  }

  predicate PastToken(pc: Pc) {
    pc == Appending || pc == SendToken || pc == Done
  }

  predicate Appended(pc: Pc) {
    pc == SendToken || pc == Done
  }

  // a sends the barrier token of its host, or the append token, to b.
  ghost predicate Barrier(net: Net, a: nat, b: nat)
    requires a < |net.intraSize| && a < |net.intraRight|
  {
    net.intraSize[a] > 1 && net.intraRight[a] == b
  }

  ghost predicate Passes(net: Net, a: nat, b: nat)
    requires a < |net.intraRoot| && a < |net.interRight|
  {
    net.nhosts > 1 && IsRoot(net, a) && net.interRight[a] == b && b != 0
  }

  ghost function Sent(net: Net, a: nat, b: nat, pc: Pc): nat
    requires SameLengths(net) && a < |net.intraRoot|
  {
    (if Barrier(net, a, b) && PastSend(IsRoot(net, a), pc) then 1 else 0)
    + (if Passes(net, a, b) && pc == Done then 1 else 0)
  }

  ghost function Got(net: Net, a: nat, b: nat, pc: Pc): nat
    requires SameLengths(net) && a < |net.intraRoot| && b < |net.intraRoot|
  {
    (if Barrier(net, a, b) && PastRecv(IsRoot(net, b), pc) then 1 else 0)
    + (if Passes(net, a, b) && PastToken(pc) then 1 else 0)
  }

  ghost predicate PcOk(net: Net, x: nat, pc: Pc)
    requires SameLengths(net) && x < |net.intraRoot|
  {
    && (!IsRoot(net, x) ==> pc == Writing || pc == RecvLeft || pc == SendRight || pc == Done)
    && (net.intraSize[x] <= 1 ==> pc != SendRight && pc != RecvLeft)
    && (pc == WaitToken ==> net.nhosts > 1 && x != 0)
    && (pc == SendToken ==> net.nhosts > 1 && net.interRight[x] != 0)
  }

  ghost predicate TokenOk(net: Net, s: State, a: nat, b: nat)
    requires SameLengths(net) && a < |s.pc| == |net.intraRoot| && b < |s.pc|
  {
    Tokens(s, a, b) == Sent(net, a, b, s.pc[a]) - Got(net, a, b, s.pc[b])
  }

  ghost predicate FileOk(net: Net, s: State, x: nat)
    requires SameLengths(net) && x < |s.pc| == |net.intraRoot|
  {
    net.intraRoot[x] < |s.pc| && (x in s.tmp <==> s.pc[x] != Writing && !Appended(s.pc[net.intraRoot[x]]))
  }

  // The roots that have appended are the first |log|, and each has appended its whole host.
  ghost predicate LogOk(net: Net, roots: seq<nat>, s: State) {
    && |s.log| <= |roots|
    && (forall j | 0 <= j < |roots| :: roots[j] < |s.pc| && (Appended(s.pc[roots[j]]) <==> j < |s.log|))
    && forall j | 0 <= j < |s.log| :: s.log[j] == Host(net, roots[j])
  }

  ghost predicate Invariant(net: Net, roots: seq<nat>, rings: seq<seq<nat>>, s: State) {
    && NetOk(net, roots, rings) && |s.pc| == |net.intraRoot|
    && (forall x | 0 <= x < |s.pc| :: PcOk(net, x, s.pc[x]))
    && (forall a, b | 0 <= a < |s.pc| && 0 <= b < |s.pc| :: TokenOk(net, s, a, b))
    && (forall x | 0 <= x < |s.pc| :: FileOk(net, s, x))
    && LogOk(net, roots, s)
  }

  // ---- places on the rings ----------------------------------------------------------------------

  lemma InRing(net: Net, roots: seq<nat>, rings: seq<seq<nat>>, x: nat) returns (r: nat, k: nat)
    requires NetOk(net, roots, rings) && x < |rings|
    ensures r == net.intraRoot[x] < |rings| && IsRoot(net, r) && HostRing(net, r, rings[r])
    ensures k < |rings[r]| && rings[r][k] == x
    ensures IsRoot(net, x) <==> k == 0
    ensures net.intraSize[x] == |rings[r]|
  {
    r := net.intraRoot[x];
    var j :| 0 <= j < |roots| && roots[j] == r;
    k :| 0 <= k < |rings[r]| && rings[r][k] == x;
  }

  // Who sends b its barrier token.
  lemma LeftIsBarrier(net: Net, roots: seq<nat>, rings: seq<seq<nat>>, b: nat)
    requires NetOk(net, roots, rings) && b < |rings| && net.intraSize[b] > 1
    ensures 0 <= net.intraLeft[b] < |rings| && net.intraLeft[b] != b
    ensures 0 <= net.intraRight[b] < |rings| && net.intraRight[b] != b
    ensures forall a: nat | a < |rings| :: Barrier(net, a, b) <==> net.intraLeft[b] == a
    ensures net.intraRoot[net.intraLeft[b]] == net.intraRoot[b] == net.intraRoot[net.intraRight[b]]
  {
    var r, k := InRing(net, roots, rings, b);
    var list := rings[r];
    var p := if k == 0 then |list| - 1 else k - 1;
    assert Succ(p, |list|) == k;
    assert net.intraLeft[list[Succ(p, |list|)]] == list[p];
    forall a: nat | a < |rings| && Barrier(net, a, b)
      ensures a == list[p]
    {
      BarrierFrom(net, roots, rings, a, r, k);
    }
  }

  lemma BarrierFrom(net: Net, roots: seq<nat>, rings: seq<seq<nat>>, a: nat, r: nat, k: nat)
    requires NetOk(net, roots, rings) && a < |rings| && r < |rings| && IsRoot(net, r) && k < |rings[r]|
    requires |rings[r]| >= 2
    requires Barrier(net, a, rings[r][k])
    ensures a == rings[r][if k == 0 then |rings[r]| - 1 else k - 1]
  {
    var r', i := InRing(net, roots, rings, a);
    assert net.intraRight[rings[r'][i]] == rings[r'][Succ(i, |rings[r']|)];
    assert HostRing(net, r, rings[r]);
    assert r' == r;
  }

  lemma LeftPasses(net: Net, roots: seq<nat>, rings: seq<seq<nat>>, b: nat)
    requires NetOk(net, roots, rings) && b < |rings| && net.nhosts > 1 && IsRoot(net, b) && b != 0
    ensures 0 <= net.interLeft[b] < |rings| && net.interLeft[b] != b
    ensures forall a: nat | a < |rings| :: Passes(net, a, b) <==> net.interLeft[b] == a
    ensures IsRoot(net, net.interLeft[b])
  {
    var j :| 0 <= j < |roots| && roots[j] == b;
    assert Succ(j - 1, |roots|) == j;
    assert net.interLeft[roots[Succ(j - 1, |roots|)]] == roots[j - 1];
    forall a: nat | a < |rings| && Passes(net, a, b)
      ensures a == roots[j - 1]
    {
      assert net.intraRoot[a] in roots;
      var i :| 0 <= i < |roots| && roots[i] == a;
      assert net.interRight[roots[i]] == roots[Succ(i, |roots|)];
    }
  }

  lemma RightPasses(net: Net, roots: seq<nat>, rings: seq<seq<nat>>, a: nat)
    requires NetOk(net, roots, rings) && a < |rings| && net.nhosts > 1 && IsRoot(net, a)
    ensures 0 <= net.interRight[a] < |rings| && net.interRight[a] != a && IsRoot(net, net.interRight[a])
  {
    assert net.intraRoot[a] in roots;
    var i :| 0 <= i < |roots| && roots[i] == a;
    assert net.interRight[roots[i]] == roots[Succ(i, |roots|)];
  }

  // ---- every step keeps the invariant -------------------------------------------------------------

  // Rank x going from pc to pc' sends d a token (or takes one from d), and nobody else.
  ghost predicate Gives(net: Net, x: nat, pc: Pc, pc': Pc, d: int, b: nat)
    requires SameLengths(net) && x < |net.intraRoot| && b < |net.intraRoot|
  {
    && Sent(net, x, b, pc') == Sent(net, x, b, pc) + (if b == d then 1 else 0)
    && Got(net, b, x, pc') == Got(net, b, x, pc)
  }

  ghost predicate Gets(net: Net, x: nat, pc: Pc, pc': Pc, d: int, b: nat)
    requires SameLengths(net) && x < |net.intraRoot| && b < |net.intraRoot|
  {
    && Sent(net, x, b, pc') == Sent(net, x, b, pc)
    && Got(net, b, x, pc') == Got(net, b, x, pc) + (if b == d then 1 else 0)
  }

  lemma LocalGives(net: Net, roots: seq<nat>, rings: seq<seq<nat>>, x: nat, pc: Pc, pc': Pc, b: nat)
    requires NetOk(net, roots, rings) && x < |rings| && b < |rings| && PcOk(net, x, pc)
    requires (pc == Writing && pc' == AfterClose(net, x)) || (pc == Appending && pc' == AfterAppend(net, x))
    ensures Gives(net, x, pc, pc', -1, b)
  {
    hide HostRing, RootRing;
    RingFacts(net, roots, rings, x);
  }

  lemma SendGives(net: Net, roots: seq<nat>, rings: seq<seq<nat>>, x: nat, pc: Pc, pc': Pc, b: nat)
    requires NetOk(net, roots, rings) && x < |rings| && b < |rings| && PcOk(net, x, pc)
    requires (pc == SendRight && pc' == if IsRoot(net, x) then RecvLeft else AfterRing(net, x))
      || (pc == SendToken && pc' == Done)
    ensures Gives(net, x, pc, pc', if pc == SendRight then net.intraRight[x] else net.interRight[x], b)
  {
    hide HostRing, RootRing;
    RingFacts(net, roots, rings, x);
  }

  lemma StepGives(net: Net, roots: seq<nat>, rings: seq<seq<nat>>, s: State, x: nat, b: nat)
    requires Invariant(net, roots, rings, s) && Enabled(net, s, x) && b < |s.pc|
    ensures var pc, pc' := s.pc[x], Step(net, s, x).pc[x];
      && (pc == Writing || pc == Appending ==> Gives(net, x, pc, pc', -1, b))
      && (pc == SendRight ==> Gives(net, x, pc, pc', net.intraRight[x], b))
      && (pc == SendToken ==> Gives(net, x, pc, pc', net.interRight[x], b))
  {
    hide TokenOk, FileOk, LogOk, HostRing, RootRing, Tokens, Gives, PcOk, AfterClose, AfterRing, AfterAppend;
    assert PcOk(net, x, s.pc[x]);
    if s.pc[x] == Writing || s.pc[x] == Appending {
      LocalGives(net, roots, rings, x, s.pc[x], Step(net, s, x).pc[x], b);
    } else if s.pc[x] == SendRight || s.pc[x] == SendToken {
      SendGives(net, roots, rings, x, s.pc[x], Step(net, s, x).pc[x], b);
    }
  }

  lemma RecvLeftGets(net: Net, roots: seq<nat>, rings: seq<seq<nat>>, x: nat, pc': Pc, b: nat)
    requires NetOk(net, roots, rings) && x < |rings| && b < |rings| && PcOk(net, x, RecvLeft)
    requires pc' == if IsRoot(net, x) then AfterRing(net, x) else SendRight
    ensures Gets(net, x, RecvLeft, pc', net.intraLeft[x], b)
  {
    hide HostRing, RootRing;
    RingFacts(net, roots, rings, x);
  }

  lemma WaitTokenGets(net: Net, roots: seq<nat>, rings: seq<seq<nat>>, x: nat, b: nat)
    requires NetOk(net, roots, rings) && x < |rings| && b < |rings| && PcOk(net, x, WaitToken)
    ensures Gets(net, x, WaitToken, Appending, net.interLeft[x], b)
  {
    hide HostRing, RootRing;
    RingFacts(net, roots, rings, x);
  }

  lemma StepGets(net: Net, roots: seq<nat>, rings: seq<seq<nat>>, s: State, x: nat, b: nat)
    requires Invariant(net, roots, rings, s) && Enabled(net, s, x) && b < |s.pc|
    ensures var pc, pc' := s.pc[x], Step(net, s, x).pc[x];
      && (pc == RecvLeft ==> Gets(net, x, pc, pc', net.intraLeft[x], b))
      && (pc == WaitToken ==> Gets(net, x, pc, pc', net.interLeft[x], b))
  {
    hide TokenOk, FileOk, LogOk, HostRing, RootRing, Gets, PcOk, AfterRing;
    assert PcOk(net, x, s.pc[x]);
    if s.pc[x] == RecvLeft {
      RecvLeftGets(net, roots, rings, x, Step(net, s, x).pc[x], b);
    } else if s.pc[x] == WaitToken {
      WaitTokenGets(net, roots, rings, x, b);
    }
  }

  // All a rank needs to know of the rings.
  lemma RingFacts(net: Net, roots: seq<nat>, rings: seq<seq<nat>>, x: nat)
    requires NetOk(net, roots, rings) && x < |rings|
    ensures net.intraSize[x] > 1 ==>
      && 0 <= net.intraLeft[x] < |rings| && net.intraLeft[x] != x
      && 0 <= net.intraRight[x] < |rings| && net.intraRight[x] != x
    ensures net.intraSize[x] > 1 ==> forall a: nat | a < |rings| :: Barrier(net, a, x) <==> net.intraLeft[x] == a
    ensures net.intraSize[x] <= 1 ==> forall a: nat | a < |rings| :: !Barrier(net, a, x)
    ensures net.intraSize[x] <= 1 ==> IsRoot(net, x)
    ensures net.nhosts > 1 && IsRoot(net, x) ==> 0 <= net.interRight[x] < |rings| && net.interRight[x] != x
    ensures net.nhosts > 1 && IsRoot(net, x) && x != 0 ==>
      && 0 <= net.interLeft[x] < |rings| && net.interLeft[x] != x
      && forall a: nat | a < |rings| :: Passes(net, a, x) <==> net.interLeft[x] == a
    ensures x == 0 || !IsRoot(net, x) || net.nhosts <= 1 ==> forall a: nat | a < |rings| :: !Passes(net, a, x)
  {
    var r, k := InRing(net, roots, rings, x);
    if net.intraSize[x] > 1 {
      LeftIsBarrier(net, roots, rings, x);
    } else {
      forall a: nat | a < |rings|
        ensures !Barrier(net, a, x)
      {
        AloneNoBarrier(net, roots, rings, a, x);
      }
    }
    if net.nhosts > 1 && IsRoot(net, x) {
      RightPasses(net, roots, rings, x);
      if x != 0 {
        LeftPasses(net, roots, rings, x);
      }
    }
    forall a: nat | a < |rings| && Passes(net, a, x)
      ensures x != 0 && IsRoot(net, x) && net.nhosts > 1
    {
      RightPasses(net, roots, rings, a);
    }
  }

  lemma AloneNoBarrier(net: Net, roots: seq<nat>, rings: seq<seq<nat>>, a: nat, x: nat)
    requires NetOk(net, roots, rings) && a < |rings| && x < |rings| && net.intraSize[x] <= 1
    ensures !Barrier(net, a, x)
  {
    if Barrier(net, a, x) {
      LeftIsBarrier(net, roots, rings, a);
      var r, k := InRing(net, roots, rings, a);
      var r', k' := InRing(net, roots, rings, x);
    }
  }

  // Where x sends a token next, and from whom it takes one.
  function GivesTo(net: Net, pc: Pc, x: nat): int
    requires SameLengths(net) && x < |net.intraRoot|
  {
    match pc
    case SendRight => net.intraRight[x]
    case SendToken => net.interRight[x]
    case _ => -1
  }

  function TakesFrom(net: Net, pc: Pc, x: nat): int
    requires SameLengths(net) && x < |net.intraRoot|
  {
    match pc
    case RecvLeft => net.intraLeft[x]
    case WaitToken => net.interLeft[x]
    case _ => -1
  }

  lemma TokensMove(net: Net, s: State, x: nat, a: nat, b: nat)
    requires Enabled(net, s, x)
    ensures Tokens(Step(net, s, x), a, b) == Tokens(s, a, b)
      + (if a == x && b == GivesTo(net, s.pc[x], x) then 1 else 0)
      - (if b == x && a == TakesFrom(net, s.pc[x], x) then 1 else 0)
  {
    hide AfterClose, AfterAppend, AfterRing, IsRoot, Host;
  }

  lemma StepMoves(net: Net, s: State, x: nat)
    requires Enabled(net, s, x)
    ensures var s' := Step(net, s, x);
      |s'.pc| == |s.pc| && forall y | 0 <= y < |s.pc| && y != x :: s'.pc[y] == s.pc[y]
  {
    hide AfterClose, AfterAppend, AfterRing, IsRoot, Host, Put, Take;
  }

  lemma TokensKept(net: Net, roots: seq<nat>, rings: seq<seq<nat>>, s: State, x: nat, a: nat, b: nat)
    requires Invariant(net, roots, rings, s) && Enabled(net, s, x) && a < |s.pc| && b < |s.pc|
    ensures TokenOk(net, Step(net, s, x), a, b)
  {
    hide FileOk, LogOk, HostRing, RootRing, Sent, Got, PcOk, Step, Tokens;
    assert TokenOk(net, s, a, b);
    StepMoves(net, s, x);
    TokensMove(net, s, x, a, b);
    RingFacts(net, roots, rings, x);
    if a == x {
      StepGives(net, roots, rings, s, x, b);
      StepGets(net, roots, rings, s, x, b);
    }
    if b == x {
      StepGives(net, roots, rings, s, x, a);
      StepGets(net, roots, rings, s, x, a);
    }
  }

  // A token that has been taken has been given.
  lemma BarrierOrder(net: Net, roots: seq<nat>, rings: seq<seq<nat>>, s: State, a: nat, b: nat)
    requires Invariant(net, roots, rings, s) && a < |s.pc| && b < |s.pc| && Barrier(net, a, b)
    ensures Tokens(s, a, b)
      == (if PastSend(IsRoot(net, a), s.pc[a]) then 1 else 0) - (if PastRecv(IsRoot(net, b), s.pc[b]) then 1 else 0)
    ensures net.intraLeft[b] == a && net.intraSize[b] > 1
  {
    hide FileOk, LogOk, PcOk, PastSend, PastRecv, HostRing, RootRing, Tokens;
    assert TokenOk(net, s, a, b);
    RingFacts(net, roots, rings, b);
    RingFacts(net, roots, rings, a);
    OtherHost(net, roots, rings, a, b);
  }

  lemma OtherHost(net: Net, roots: seq<nat>, rings: seq<seq<nat>>, a: nat, b: nat)
    requires NetOk(net, roots, rings) && a < |rings| && b < |rings| && Barrier(net, a, b)
    ensures !Passes(net, a, b)
  {
    hide HostRing, RootRing;
    LeftIsBarrier(net, roots, rings, a);
    if Passes(net, a, b) {
      RightPasses(net, roots, rings, a);
    }
  }

  lemma PassOrder(net: Net, roots: seq<nat>, rings: seq<seq<nat>>, s: State, j: nat)
    requires Invariant(net, roots, rings, s) && 0 < j < |roots|
    ensures roots[j] < |s.pc| && roots[j - 1] < |s.pc|
    ensures Tokens(s, roots[j - 1], roots[j])
      == (if s.pc[roots[j - 1]] == Done then 1 else 0) - (if PastToken(s.pc[roots[j]]) then 1 else 0)
    ensures net.interLeft[roots[j]] == roots[j - 1] && net.nhosts > 1
  {
    hide FileOk, LogOk, PcOk, HostRing, Tokens, PastSend, PastRecv;
    var a, b := roots[j - 1], roots[j];
    assert TokenOk(net, s, a, b);
    assert Succ(j - 1, |roots|) == j;
    assert net.interRight[roots[j - 1]] == roots[Succ(j - 1, |roots|)];
    if Barrier(net, a, b) {
      OtherHost(net, roots, rings, a, b);
    }
  }

  // What a step of the ring says for its list.
  lemma RingEdge(net: Net, roots: seq<nat>, rings: seq<seq<nat>>, r: nat, k: nat)
    requires NetOk(net, roots, rings) && r < |rings| && IsRoot(net, r) && 0 < k < |rings[r]|
    ensures rings[r][k] < |rings| && rings[r][k - 1] < |rings|
    ensures Barrier(net, rings[r][k - 1], rings[r][k])
    ensures !IsRoot(net, rings[r][k]) && net.intraSize[rings[r][k]] > 1
    ensures Barrier(net, rings[r][|rings[r]| - 1], r)
  {
    var list := rings[r];
    assert HostRing(net, r, list);
    assert Succ(k - 1, |list|) == k && Succ(|list| - 1, |list|) == 0;
    assert net.intraRight[list[k - 1]] == list[Succ(k - 1, |list|)];
    assert net.intraRight[list[|list| - 1]] == list[Succ(|list| - 1, |list|)];
  }

  // Once a root is past the barrier every other rank of its host is done.
  lemma {:induction false} Closed(net: Net, roots: seq<nat>, rings: seq<seq<nat>>, s: State, r: nat, k: nat)
    requires Invariant(net, roots, rings, s) && r < |s.pc| && IsRoot(net, r) && 0 < k < |rings[r]|
    requires PastRecv(true, s.pc[r])
    ensures rings[r][k] < |s.pc| && s.pc[rings[r][k]] == Done
    decreases |rings[r]| - k
  {
    hide FileOk, LogOk, HostRing, RootRing, TokenOk, Barrier, Tokens;
    var list := rings[r];
    RingEdge(net, roots, rings, r, k);
    if k == |list| - 1 {
      BarrierOrder(net, roots, rings, s, list[k], r);
    } else {
      Closed(net, roots, rings, s, r, k + 1);
      RingEdge(net, roots, rings, r, k + 1);
      BarrierOrder(net, roots, rings, s, list[k], list[k + 1]);
    }
  }

  // A root that may append has all the files of its host before it ...
  lemma HostClosed(net: Net, roots: seq<nat>, rings: seq<seq<nat>>, s: State, r: nat)
    requires Invariant(net, roots, rings, s) && r < |s.pc| && s.pc[r] == Appending
    ensures IsRoot(net, r)
    ensures Host(net, r) <= s.tmp
    ensures forall y: nat | y in Host(net, r) && y != r :: s.pc[y] == Done
  {
    hide HostRing, RootRing, TokenOk, LogOk, Tokens;
    assert PcOk(net, r, s.pc[r]);
    forall y: nat | y in Host(net, r)
      ensures y in s.tmp && (y != r ==> s.pc[y] == Done)
    {
      var r', k := InRing(net, roots, rings, y);
      if k > 0 {
        Closed(net, roots, rings, s, r, k);
      }
      assert FileOk(net, s, y);
    }
  }

  // ... and every root before it is done.
  lemma {:induction false} EarlierDone(net: Net, roots: seq<nat>, rings: seq<seq<nat>>, s: State, j: nat, i: nat)
    requires Invariant(net, roots, rings, s) && i < j < |roots| && roots[j] < |s.pc| && PastToken(s.pc[roots[j]])
    ensures roots[i] < |s.pc| && s.pc[roots[i]] == Done
  {
    hide HostRing, FileOk, LogOk, TokenOk, PcOk, Tokens;
    PassOrder(net, roots, rings, s, j);
    if i < j - 1 {
      EarlierDone(net, roots, rings, s, j - 1, i);
    }
  }

  // Appending in turn: the root that appends is the next on the list of roots.
  lemma NextToAppend(net: Net, roots: seq<nat>, rings: seq<seq<nat>>, s: State, r: nat)
    requires Invariant(net, roots, rings, s) && r < |s.pc| && s.pc[r] == Appending
    ensures |s.log| < |roots| && roots[|s.log|] == r
  {
    hide HostRing, RootRing, FileOk, TokenOk, Tokens, PcOk, Host;
    HostClosed(net, roots, rings, s, r);
    assert net.intraRoot[r] in roots;
    var j :| 0 <= j < |roots| && roots[j] == r;
    if j > |s.log| {
      EarlierDone(net, roots, rings, s, j, |s.log|);
    }
  }

  lemma LogGrows(net: Net, roots: seq<nat>, rings: seq<seq<nat>>, s: State, x: nat)
    requires Invariant(net, roots, rings, s) && Enabled(net, s, x) && s.pc[x] == Appending
    ensures LogOk(net, roots, Step(net, s, x))
  {
    hide HostRing, FileOk, TokenOk, Tokens, Host, PcOk;
    HostClosed(net, roots, rings, s, x);
    NextToAppend(net, roots, rings, s, x);
    assert s.tmp * Host(net, x) == Host(net, x);
  }

  lemma LogSame(net: Net, roots: seq<nat>, rings: seq<seq<nat>>, s: State, x: nat)
    requires Invariant(net, roots, rings, s) && Enabled(net, s, x) && s.pc[x] != Appending
    ensures LogOk(net, roots, Step(net, s, x))
  {
    hide HostRing, FileOk, TokenOk, Tokens, Host, Step, Appended;
    assert PcOk(net, x, s.pc[x]);
    StepMoves(net, s, x);
    StepAppends(net, s, x);
    assert forall j | 0 <= j < |roots| :: roots[j] == x ==> IsRoot(net, x);
  }

  lemma StepAppends(net: Net, s: State, x: nat)
    requires Enabled(net, s, x) && PcOk(net, x, s.pc[x]) && s.pc[x] != Appending
    ensures Step(net, s, x).log == s.log
    ensures IsRoot(net, x) ==> (Appended(Step(net, s, x).pc[x]) <==> Appended(s.pc[x]))
  {
    hide Host, Put, Take;
  }

  lemma LogKept(net: Net, roots: seq<nat>, rings: seq<seq<nat>>, s: State, x: nat)
    requires Invariant(net, roots, rings, s) && Enabled(net, s, x)
    ensures LogOk(net, roots, Step(net, s, x))
  {
    hide LogOk, TokenOk, FileOk, PcOk, HostRing, RootRing;
    if s.pc[x] == Appending {
      LogGrows(net, roots, rings, s, x);
    } else {
      LogSame(net, roots, rings, s, x);
    }
  }

  // A rank that has not closed its file keeps its root from appending.
  lemma Unclosed(net: Net, roots: seq<nat>, rings: seq<seq<nat>>, s: State, x: nat)
    requires Invariant(net, roots, rings, s) && x < |s.pc| && s.pc[x] == Writing
    ensures net.intraRoot[x] < |s.pc| && !Appended(s.pc[net.intraRoot[x]])
  {
    hide HostRing, TokenOk, Tokens, LogOk, RootRing, FileOk;
    var r, k := InRing(net, roots, rings, x);
    if Appended(s.pc[r]) && k > 0 {
      Closed(net, roots, rings, s, r, k);
    }
  }

  lemma FilesKept(net: Net, roots: seq<nat>, rings: seq<seq<nat>>, s: State, x: nat, y: nat)
    requires Invariant(net, roots, rings, s) && Enabled(net, s, x) && y < |s.pc|
    ensures FileOk(net, Step(net, s, x), y)
  {
    hide HostRing, TokenOk, Tokens, LogOk, RootRing, Put, Take;
    assert PcOk(net, x, s.pc[x]) && PcOk(net, y, s.pc[y]);
    assert FileOk(net, s, y);
    var r, k := InRing(net, roots, rings, y);
    if s.pc[x] == Writing {
      Unclosed(net, roots, rings, s, x);
    }
  }

  lemma PcKept(net: Net, roots: seq<nat>, rings: seq<seq<nat>>, s: State, x: nat)
    requires Invariant(net, roots, rings, s) && Enabled(net, s, x)
    ensures PcOk(net, x, Step(net, s, x).pc[x])
  {
    hide HostRing, TokenOk, Tokens, LogOk, RootRing, FileOk;
    RingFacts(net, roots, rings, x);
    assert PcOk(net, x, s.pc[x]);
  }

  lemma StepKeeps(net: Net, roots: seq<nat>, rings: seq<seq<nat>>, s: State, x: nat)
    requires Invariant(net, roots, rings, s) && Enabled(net, s, x)
    ensures Invariant(net, roots, rings, Step(net, s, x))
  {
    hide TokenOk, FileOk, LogOk, PcOk, NetOk, AfterClose, AfterRing, AfterAppend, Take, Put, Host;
    var s' := Step(net, s, x);
    PcKept(net, roots, rings, s, x);
    LogKept(net, roots, rings, s, x);
    forall a, b | 0 <= a < |s.pc| && 0 <= b < |s.pc|
      ensures TokenOk(net, s', a, b)
    {
      TokensKept(net, roots, rings, s, x, a, b);
    }
    forall y | 0 <= y < |s.pc|
      ensures FileOk(net, s', y)
    {
      FilesKept(net, roots, rings, s, x, y);
    }
  }

  lemma InitialOk(net: Net, roots: seq<nat>, rings: seq<seq<nat>>, s: State)
    requires NetOk(net, roots, rings) && Initial(net, s)
    ensures Invariant(net, roots, rings, s)
  {
    hide HostRing;
  }

  // ---- no deadlock --------------------------------------------------------------------------------

  // Rank x can move, and every token it has given has been taken.
  ghost predicate Ready(net: Net, s: State, x: nat) {
    Enabled(net, s, x) && forall b: nat | b < |s.pc| :: Tokens(s, x, b) == 0
  }

  lemma NothingGiven(net: Net, roots: seq<nat>, rings: seq<seq<nat>>, s: State, x: nat)
    requires Invariant(net, roots, rings, s) && x < |s.pc|
    requires s.pc[x] == Writing || s.pc[x] == SendRight || (s.pc[x] == RecvLeft && !IsRoot(net, x))
    ensures forall b: nat | b < |s.pc| :: Tokens(s, x, b) == 0
  {
    hide HostRing, RootRing, FileOk, LogOk, Tokens;
    forall b: nat | b < |s.pc|
      ensures Tokens(s, x, b) == 0
    {
      assert TokenOk(net, s, x, b);
    }
  }

  // A root past sending, whose host's other ranks are done, has only the append token to give.
  lemma BarrierTaken(net: Net, roots: seq<nat>, rings: seq<seq<nat>>, s: State, r: nat)
    requires Invariant(net, roots, rings, s) && r < |s.pc| && IsRoot(net, r) && s.pc[r] != Done
    requires forall k | 0 < k < |rings[r]| :: rings[r][k] < |s.pc| && PastRecv(false, s.pc[rings[r][k]])
    ensures forall b: nat | b < |s.pc| :: Tokens(s, r, b) == 0
  {
    hide HostRing, RootRing, FileOk, LogOk, Tokens, PcOk, PastSend;
    forall b: nat | b < |s.pc|
      ensures Tokens(s, r, b) == 0
    {
      assert TokenOk(net, s, r, b);
      if Barrier(net, r, b) {
        BarrierOrder(net, roots, rings, s, r, b);
        RootsRight(net, roots, rings, r, b);
      }
    }
  }

  lemma RootsRight(net: Net, roots: seq<nat>, rings: seq<seq<nat>>, r: nat, b: nat)
    requires NetOk(net, roots, rings) && r < |rings| && b < |rings| && IsRoot(net, r) && Barrier(net, r, b)
    ensures |rings[r]| > 1 && rings[r][1] == b && !IsRoot(net, b)
  {
    hide RootRing;
    assert HostRing(net, r, rings[r]);
    assert Succ(0, |rings[r]|) == 1;
    assert net.intraRight[rings[r][0]] == rings[r][Succ(0, |rings[r]|)];
    RingEdge(net, roots, rings, r, 1);
  }

  ghost predicate Settled(s: State) {
    forall x | 0 <= x < |s.pc| :: s.pc[x] != Writing && s.pc[x] != SendRight
  }

  // With nobody left to write or send, somebody who waits on the barrier has a token.
  lemma {:induction false} WalkLeft(net: Net, roots: seq<nat>, rings: seq<seq<nat>>, s: State, r: nat, k: nat)
    returns (x: nat)
    requires Invariant(net, roots, rings, s) && Settled(s) && r < |s.pc| && IsRoot(net, r)
    requires 0 < k < |rings[r]| && rings[r][k] < |s.pc| && s.pc[rings[r][k]] == RecvLeft
    ensures Ready(net, s, x)
  {
    hide HostRing, RootRing, FileOk, LogOk, TokenOk, Tokens, Barrier;
    var list := rings[r];
    RingEdge(net, roots, rings, r, k);
    BarrierOrder(net, roots, rings, s, list[k - 1], list[k]);
    assert PcOk(net, list[k - 1], s.pc[list[k - 1]]);
    if PastSend(IsRoot(net, list[k - 1]), s.pc[list[k - 1]]) {
      x := list[k];
      NothingGiven(net, roots, rings, s, x);
    } else {
      RingHead(net, roots, rings, r);
      x := WalkLeft(net, roots, rings, s, r, k - 1);
    }
  }

  lemma RingHead(net: Net, roots: seq<nat>, rings: seq<seq<nat>>, r: nat)
    requires NetOk(net, roots, rings) && r < |rings| && IsRoot(net, r)
    ensures rings[r] != [] && rings[r][0] == r
  {
    hide RootRing;
    assert HostRing(net, r, rings[r]);
  }

  lemma RootWaits(net: Net, roots: seq<nat>, rings: seq<seq<nat>>, s: State, r: nat) returns (x: nat)
    requires Invariant(net, roots, rings, s) && Settled(s) && r < |s.pc| && IsRoot(net, r) && s.pc[r] == RecvLeft
    ensures Ready(net, s, x)
  {
    hide HostRing, RootRing, FileOk, LogOk, TokenOk, Tokens, Barrier;
    RingHead(net, roots, rings, r);
    RingSize(net, roots, rings, s, r);
    if k: nat :| 0 < k < |rings[r]| && rings[r][k] < |s.pc| && s.pc[rings[r][k]] == RecvLeft {
      x := WalkLeft(net, roots, rings, s, r, k);
    } else {
      var last := rings[r][|rings[r]| - 1];
      OthersDone(net, roots, rings, s, r);
      RingEdge(net, roots, rings, r, |rings[r]| - 1);
      BarrierOrder(net, roots, rings, s, last, r);
      BarrierTaken(net, roots, rings, s, r);
      x := r;
    }
  }

  lemma RingSize(net: Net, roots: seq<nat>, rings: seq<seq<nat>>, s: State, r: nat)
    requires Invariant(net, roots, rings, s) && r < |s.pc| && IsRoot(net, r) && s.pc[r] == RecvLeft
    ensures |rings[r]| > 1
  {
    hide HostRing, RootRing, FileOk, LogOk, TokenOk, Tokens, Barrier;
    assert PcOk(net, r, s.pc[r]);
    var r', k := InRing(net, roots, rings, r);
  }

  lemma OthersDone(net: Net, roots: seq<nat>, rings: seq<seq<nat>>, s: State, r: nat)
    requires Invariant(net, roots, rings, s) && Settled(s) && r < |s.pc| && IsRoot(net, r)
    requires forall k: nat | 0 < k < |rings[r]| :: !(rings[r][k] < |s.pc| && s.pc[rings[r][k]] == RecvLeft)
    ensures forall k | 0 < k < |rings[r]| :: rings[r][k] < |s.pc| && s.pc[rings[r][k]] == Done
  {
    hide HostRing, RootRing, FileOk, LogOk, TokenOk, Tokens, Barrier;
    forall k | 0 < k < |rings[r]|
      ensures rings[r][k] < |s.pc| && s.pc[rings[r][k]] == Done
    {
      RingEdge(net, roots, rings, r, k);
      assert PcOk(net, rings[r][k], s.pc[rings[r][k]]);
    }
  }

  // With the barriers behind them, a root that waits for its turn leads to one whose turn it is.
  lemma {:induction false} WalkRoots(net: Net, roots: seq<nat>, rings: seq<seq<nat>>, s: State, j: nat) returns (x: nat)
    requires Invariant(net, roots, rings, s) && Settled(s) && j < |roots| && roots[j] < |s.pc| && s.pc[roots[j]] != Done
    requires forall x | 0 <= x < |s.pc| :: s.pc[x] != RecvLeft
    ensures Ready(net, s, x)
  {
    hide HostRing, FileOk, LogOk, TokenOk, Tokens;
    var r := roots[j];
    assert PcOk(net, r, s.pc[r]);
    OthersDone(net, roots, rings, s, r);
    BarrierTaken(net, roots, rings, s, r);
    if s.pc[r] == WaitToken {
      PassOrder(net, roots, rings, s, j);
      if s.pc[roots[j - 1]] == Done {
        x := r;
      } else {
        x := WalkRoots(net, roots, rings, s, j - 1);
      }
    } else {
      x := r;
    }
  }

  lemma Progress(net: Net, roots: seq<nat>, rings: seq<seq<nat>>, s: State, q: nat) returns (x: nat)
    requires Invariant(net, roots, rings, s) && q < |s.pc| && s.pc[q] != Done
    ensures Ready(net, s, x)
  {
    hide HostRing, FileOk, LogOk, TokenOk, Tokens;
    if y: nat :| y < |s.pc| && (s.pc[y] == Writing || s.pc[y] == SendRight) {
      NothingGiven(net, roots, rings, s, y);
      x := y;
    } else if y: nat :| y < |s.pc| && s.pc[y] == RecvLeft {
      var r, k := InRing(net, roots, rings, y);
      if k == 0 {
        x := RootWaits(net, roots, rings, s, y);
      } else {
        x := WalkLeft(net, roots, rings, s, r, k);
      }
    } else {
      assert PcOk(net, q, s.pc[q]);
      assert IsRoot(net, q) && q in roots;
      var j :| 0 <= j < |roots| && roots[j] == q;
      x := WalkRoots(net, roots, rings, s, j);
    }
  }

  // ---- whole runs -----------------------------------------------------------------------------------

  function AppendMoves(net: Net, x: nat): nat
    requires x < |net.interRight|
  {
    if AfterAppend(net, x) == SendToken then 2 else 1
  }

  function TurnMoves(net: Net, x: nat, pc: Pc): nat
    requires x < |net.interRight|
  {
    match pc
    case Done => 0
    case SendToken => 1
    case Appending => AppendMoves(net, x)
    case _ => if net.nhosts > 1 && x != 0 then 1 + AppendMoves(net, x) else AppendMoves(net, x)
  }

  // How many moves rank x has left.
  function MovesLeft(net: Net, x: nat, pc: Pc): nat
    requires x < |net.interRight| && x < |net.intraRoot| && x < |net.intraSize|
  {
    if IsRoot(net, x) then
      TurnMoves(net, x, pc)
      + (if pc == Writing then (if net.intraSize[x] > 1 then 3 else 1)
         else if pc == SendRight then 2 else if pc == RecvLeft then 1 else 0)
    else if pc == Writing then 3 else if pc == RecvLeft then 2 else if pc == SendRight then 1 else 0
  }

  function TotalLeft(net: Net, pc: seq<Pc>, n: nat): nat
    requires n <= |pc| && n <= |net.interRight| && n <= |net.intraRoot| && n <= |net.intraSize|
  {
    if n == 0 then 0 else TotalLeft(net, pc, n - 1) + MovesLeft(net, n - 1, pc[n - 1])
  }

  lemma {:induction false} TotalChanges(net: Net, pc: seq<Pc>, n: nat, x: nat, pc': Pc)
    requires n <= |pc| && SameLengths(net) && |pc| == |net.intraRoot| && x < |pc|
    ensures TotalLeft(net, pc[x := pc'], n) - TotalLeft(net, pc, n)
         == if x < n then MovesLeft(net, x, pc') - MovesLeft(net, x, pc[x]) else 0
  {
    hide MovesLeft;
    if n > 0 {
      TotalChanges(net, pc, n - 1, x, pc');
    }
  }

  lemma StepTotal(net: Net, roots: seq<nat>, rings: seq<seq<nat>>, s: State, x: nat)
    requires Invariant(net, roots, rings, s) && Enabled(net, s, x)
    ensures TotalLeft(net, Step(net, s, x).pc, |s.pc|) == TotalLeft(net, s.pc, |s.pc|) - 1
  {
    hide HostRing, RootRing, FileOk, LogOk, TokenOk, Tokens, TotalLeft;
    assert PcOk(net, x, s.pc[x]);
    RingFacts(net, roots, rings, x);
    TotalChanges(net, s.pc, |s.pc|, x, Step(net, s, x).pc[x]);
  }

  ghost predicate Legal(net: Net, s: State, moves: seq<nat>)
    decreases |moves|
  {
    moves == [] || (Enabled(net, s, moves[0]) && Legal(net, Step(net, s, moves[0]), moves[1..]))
  }

  ghost function Run(net: Net, s: State, moves: seq<nat>): State
    requires Legal(net, s, moves)
    decreases |moves|
  {
    if moves == [] then s else Run(net, Step(net, s, moves[0]), moves[1..])
  }

  lemma {:induction false} RunKeeps(net: Net, roots: seq<nat>, rings: seq<seq<nat>>, s: State, moves: seq<nat>)
    requires Invariant(net, roots, rings, s) && Legal(net, s, moves)
    ensures var e := Run(net, s, moves);
      && Invariant(net, roots, rings, e) && |e.pc| == |s.pc|
      && |moves| + TotalLeft(net, e.pc, |s.pc|) == TotalLeft(net, s.pc, |s.pc|)
    decreases |moves|
  {
    hide NetOk, PcOk, TokenOk, FileOk, LogOk, Enabled, TotalLeft;
    if moves != [] {
      StepKeeps(net, roots, rings, s, moves[0]);
      StepTotal(net, roots, rings, s, moves[0]);
      StepLength(net, s, moves[0]);
      RunKeeps(net, roots, rings, Step(net, s, moves[0]), moves[1..]);
    }
  }

  lemma StepLength(net: Net, s: State, x: nat)
    requires Enabled(net, s, x)
    ensures |Step(net, s, x).pc| == |s.pc|
  {
  }

  // What holds at every moment of every run: whoever appends is a root whose whole host has
  // closed its files, nobody else appends, and hosts are appended in the order of discovery.
  ghost predicate Safe(net: Net, roots: seq<nat>, s: State) {
    && (forall x | 0 <= x < |s.pc| && s.pc[x] == Appending ::
          && x < |net.intraRoot| && IsRoot(net, x) && Host(net, x) <= s.tmp
          && |s.log| < |roots| && roots[|s.log|] == x)
    && (forall x, y | 0 <= x < |s.pc| && 0 <= y < |s.pc| :: s.pc[x] == Appending && s.pc[y] == Appending ==> x == y)
    && |s.log| <= |roots|
    && forall j | 0 <= j < |s.log| :: s.log[j] == Host(net, roots[j])
  }

  lemma AlwaysSafe(net: Net, roots: seq<nat>, rings: seq<seq<nat>>, s: State)
    requires Invariant(net, roots, rings, s)
    ensures Safe(net, roots, s)
  {
    hide NetOk, PcOk, TokenOk, FileOk, Host;
    forall x | 0 <= x < |s.pc| && s.pc[x] == Appending
      ensures x < |net.intraRoot| && IsRoot(net, x) && Host(net, x) <= s.tmp && |s.log| < |roots| && roots[|s.log|] == x
    {
      HostClosed(net, roots, rings, s, x);
      NextToAppend(net, roots, rings, s, x);
    }
  }

  lemma {:induction false} AllMoved(net: Net, s: State, n: nat)
    requires SameLengths(net) && n <= |s.pc| == |net.intraRoot| && forall x | 0 <= x < n :: s.pc[x] == Done
    ensures TotalLeft(net, s.pc, n) == 0
  {
    if n > 0 {
      AllMoved(net, s, n - 1);
    }
  }

  // Every run is safe all along, cannot get stuck, and ends, after a number of moves that is
  // the same for all, with every host's files in the log once, in the order of discovery.
  lemma EveryRunAppends(net: Net, roots: seq<nat>, rings: seq<seq<nat>>, s: State, moves: seq<nat>)
    requires NetOk(net, roots, rings) && Initial(net, s) && Legal(net, s, moves)
    ensures var e := Run(net, s, moves);
      && Safe(net, roots, e) && |e.pc| == |s.pc|
      && |moves| <= TotalLeft(net, s.pc, |s.pc|)
      && if forall x | 0 <= x < |e.pc| :: e.pc[x] == Done
         then |moves| == TotalLeft(net, s.pc, |s.pc|) && (forall x: nat | x < |e.pc| :: x !in e.tmp)
           && |e.log| == |roots| && forall j | 0 <= j < |roots| :: e.log[j] == Host(net, roots[j])
         else exists x :: Ready(net, e, x)
  {
    hide HostRing, RootRing, PcOk, TokenOk, FileOk, Ready, TotalLeft, Legal, Host, Safe;
    InitialOk(net, roots, rings, s);
    RunKeeps(net, roots, rings, s, moves);
    var e := Run(net, s, moves);
    AlwaysSafe(net, roots, rings, e);
    if forall x | 0 <= x < |e.pc| :: e.pc[x] == Done {
      AllAppended(net, roots, rings, e);
      AllMoved(net, e, |e.pc|);
    } else {
      var q :| 0 <= q < |e.pc| && e.pc[q] != Done;
      var x := Progress(net, roots, rings, e, q);
      assert Ready(net, e, x);
    }
  }

  lemma AllAppended(net: Net, roots: seq<nat>, rings: seq<seq<nat>>, s: State)
    requires Invariant(net, roots, rings, s) && forall x | 0 <= x < |s.pc| :: s.pc[x] == Done
    ensures (forall x: nat | x < |s.pc| :: x !in s.tmp) && |s.log| == |roots|
    ensures forall j | 0 <= j < |roots| :: s.log[j] == Host(net, roots[j])
  {
    hide HostRing, RootRing, PcOk, TokenOk, Host;
    assert |roots| > 0 ==> Appended(s.pc[roots[|roots| - 1]]);
    forall x: nat | x < |s.pc|
      ensures x !in s.tmp
    {
      assert FileOk(net, s, x);
    }
  }

  // Each rank's file goes into the log exactly once.
  lemma LoggedOnce(net: Net, roots: seq<nat>, rings: seq<seq<nat>>, x: nat)
    requires NetOk(net, roots, rings) && x < |rings|
    ensures exists j :: 0 <= j < |roots| && x in Host(net, roots[j])
    ensures forall i, j | 0 <= i < |roots| && 0 <= j < |roots| ::
      x in Host(net, roots[i]) && x in Host(net, roots[j]) ==> i == j
  {
    hide HostRing;
    var j :| 0 <= j < |roots| && roots[j] == net.intraRoot[x];
    assert x in Host(net, roots[j]);
  }
}
